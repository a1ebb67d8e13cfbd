/** The blocking bounded buffer as a monitor: any number of threads call
    `task_buffer_enqueue` and `task_buffer_dequeue`, and one step is everything a
    thread does from acquiring the mutex until it releases it, in the call or in
    `pthread_cond_wait`.

    A signal wakes at least one sleeper if there is one; sleepers may also wake
    for no reason, and a woken thread competes for the mutex with newcomers and
    re-tests its condition (IEEE Std 1003.1-2017, System Interfaces,
    pthread_cond_signal and pthread_cond_wait). */
module Monitor {
  import Q = BoundedQueue

  const MAX_TASKS: nat := 8

  type Thread = nat

  /** Threads inside a call: asleep on a condition, or woken and waiting for the
      mutex; the signalled ones are those that a signal has woken.  `items` holds
      what each blocked producer is carrying. */
  datatype State<T> = State(
    queue: seq<T>,
    producersAsleep: set<Thread>, producersWoken: set<Thread>, producersSignalled: set<Thread>,
    consumersAsleep: set<Thread>, consumersWoken: set<Thread>, consumersSignalled: set<Thread>,
    items: map<Thread, T>, enqueued: seq<T>, dequeued: seq<T>)

  /** `woken` is the set of sleepers that the step's signal wakes. */
  datatype Step<T> =
    | Enqueue(thread: Thread, item: T, woken: set<Thread>)
    | ResumeEnqueue(thread: Thread, woken: set<Thread>)
    | Dequeue(thread: Thread, woken: set<Thread>)
    | ResumeDequeue(thread: Thread, woken: set<Thread>)
    | SpuriousProducer(thread: Thread)
    | SpuriousConsumer(thread: Thread)

  function Init<T>(): State<T> {
    State([], {}, {}, {}, {}, {}, {}, map[], [], [])
  }

  predicate Signals(asleep: set<Thread>, woken: set<Thread>) {
    woken <= asleep && (asleep != {} ==> woken != {})
  }

  predicate Outside<T>(m: State<T>, t: Thread) {
    && t !in m.producersAsleep && t !in m.producersWoken
    && t !in m.consumersAsleep && t !in m.consumersWoken
  }

  predicate Enabled<T>(m: State<T>, step: Step<T>) {
    match step
    case Enqueue(t, _, woken) => Outside(m, t) && Signals(m.consumersAsleep, woken)
    case ResumeEnqueue(t, woken) => t in m.producersWoken && t in m.items && Signals(m.consumersAsleep, woken)
    case Dequeue(t, woken) => Outside(m, t) && Signals(m.producersAsleep, woken)
    case ResumeDequeue(t, woken) => t in m.consumersWoken && Signals(m.producersAsleep, woken)
    case SpuriousProducer(t) => t in m.producersAsleep
    case SpuriousConsumer(t) => t in m.consumersAsleep
  }

  /** The body of `task_buffer_enqueue` once the mutex is held. */
  function EnqueueSection<T>(m: State<T>, t: Thread, x: T, woken: set<Thread>): State<T> {
    if |m.queue| == MAX_TASKS then
      m.(producersAsleep := m.producersAsleep + {t}, items := m.items[t := x])
    else
      m.(queue := m.queue + [x], enqueued := m.enqueued + [x],
         consumersAsleep := m.consumersAsleep - woken, consumersWoken := m.consumersWoken + woken,
         consumersSignalled := m.consumersSignalled + woken)
  }

  /** The body of `task_buffer_dequeue` once the mutex is held. */
  function DequeueSection<T>(m: State<T>, t: Thread, woken: set<Thread>): State<T> {
    if m.queue == [] then
      m.(consumersAsleep := m.consumersAsleep + {t})
    else
      m.(queue := m.queue[1..], dequeued := m.dequeued + [m.queue[0]],
         producersAsleep := m.producersAsleep - woken, producersWoken := m.producersWoken + woken,
         producersSignalled := m.producersSignalled + woken)
  }

  /** A woken producer has the mutex back. */
  function ProducerBack<T>(m: State<T>, t: Thread): State<T> {
    m.(producersWoken := m.producersWoken - {t}, producersSignalled := m.producersSignalled - {t},
       items := m.items - {t})
  }

  function ConsumerBack<T>(m: State<T>, t: Thread): State<T> {
    m.(consumersWoken := m.consumersWoken - {t}, consumersSignalled := m.consumersSignalled - {t})
  }

  lemma SectionOutcome<T>(m: State<T>, t: Thread, x: T, woken: set<Thread>)
    ensures var m' := EnqueueSection(m, t, x, woken);
      if |m.queue| == MAX_TASKS then
        m'.enqueued == m.enqueued && t in m'.producersAsleep && t in m'.items && m'.items[t] == x
      else
        m'.enqueued == m.enqueued + [x]
  {
  }

  function Apply<T>(m: State<T>, step: Step<T>): State<T>
    requires Enabled(m, step)
  {
    match step
    case Enqueue(t, x, woken) => EnqueueSection(m, t, x, woken)
    case ResumeEnqueue(t, woken) => EnqueueSection(ProducerBack(m, t), t, m.items[t], woken)
    case Dequeue(t, woken) => DequeueSection(m, t, woken)
    case ResumeDequeue(t, woken) => DequeueSection(ConsumerBack(m, t), t, woken)
    case SpuriousProducer(t) =>
      m.(producersAsleep := m.producersAsleep - {t}, producersWoken := m.producersWoken + {t})
    case SpuriousConsumer(t) =>
      m.(consumersAsleep := m.consumersAsleep - {t}, consumersWoken := m.consumersWoken + {t})
  }

  predicate IsRun<T>(m: State<T>, steps: seq<Step<T>>)
    decreases |steps|
  {
    steps != [] ==> Enabled(m, steps[0]) && IsRun(Apply(m, steps[0]), steps[1..])
  }

  function Run<T>(m: State<T>, steps: seq<Step<T>>): State<T>
    requires IsRun(m, steps)
    decreases |steps|
  {
    if steps == [] then m else Run(Apply(m, steps[0]), steps[1..])
  }

  // --------------------------------------------------------------- invariant

  ghost predicate Separate<T>(m: State<T>) {
    && m.producersAsleep !! m.producersWoken && m.consumersAsleep !! m.consumersWoken
    && m.producersAsleep !! m.consumersAsleep && m.producersAsleep !! m.consumersWoken
    && m.producersWoken !! m.consumersAsleep && m.producersWoken !! m.consumersWoken
    && m.producersSignalled <= m.producersWoken && m.consumersSignalled <= m.consumersWoken
    && m.items.Keys == m.producersAsleep + m.producersWoken
  }

  /** A consumer sleeps through at most as many items as signalled consumers will
      come for, and a producer through at most as many free slots. */
  ghost predicate NoLostWakeup<T>(m: State<T>) {
    && (m.consumersAsleep != {} ==> |m.queue| <= |m.consumersSignalled|)
    && (m.producersAsleep != {} ==> MAX_TASKS - |m.queue| <= |m.producersSignalled|)
  }

  ghost predicate Inv<T>(m: State<T>) {
    && Separate(m)
    && |m.queue| <= MAX_TASKS
    && NoLostWakeup(m)
    && m.enqueued == m.dequeued + m.queue
  }

  lemma WokenGrow(asleep: set<Thread>, awake: set<Thread>, woken: set<Thread>)
    requires Signals(asleep, woken) && asleep !! awake
    ensures |awake + woken| == |awake| + |woken|
    ensures asleep - woken != {} ==> |awake + woken| > |awake|
  {
    assert awake !! woken;
  }

  lemma ProducerSleeps<T>(m: State<T>, t: Thread, x: T)
    requires Separate(m) && Outside(m, t)
    ensures Separate(m.(producersAsleep := m.producersAsleep + {t}, items := m.items[t := x]))
  {
  }

  lemma ConsumersWake<T>(m: State<T>, woken: set<Thread>)
    requires Separate(m) && woken <= m.consumersAsleep
    ensures var m' := m.(consumersAsleep := m.consumersAsleep - woken, consumersWoken := m.consumersWoken + woken);
      Separate(m') && Separate(m'.(consumersSignalled := m.consumersSignalled + woken))
  {
  }

  lemma ProducersWake<T>(m: State<T>, woken: set<Thread>)
    requires Separate(m) && woken <= m.producersAsleep
    ensures var m' := m.(producersAsleep := m.producersAsleep - woken, producersWoken := m.producersWoken + woken);
      Separate(m') && Separate(m'.(producersSignalled := m.producersSignalled + woken))
  {
  }

  /** The thread that runs the section may just have left the signalled producers,
      so free slots are covered up to one. */
  lemma EnqueueSectionKeepsInv<T>(m: State<T>, t: Thread, x: T, woken: set<Thread>)
    requires Separate(m) && Outside(m, t) && |m.queue| <= MAX_TASKS
    requires m.enqueued == m.dequeued + m.queue
    requires Signals(m.consumersAsleep, woken)
    requires m.consumersAsleep != {} ==> |m.queue| <= |m.consumersSignalled|
    requires m.producersAsleep != {} ==> MAX_TASKS - |m.queue| <= |m.producersSignalled| + 1
    ensures Inv(EnqueueSection(m, t, x, woken))
  {
    var m' := EnqueueSection(m, t, x, woken);
    if |m.queue| == MAX_TASKS {
      ProducerSleeps(m, t, x);
    } else {
      ConsumersWake(m, woken);
      assert Separate(m');
      WokenGrow(m.consumersAsleep, m.consumersSignalled, woken);
      assert m'.enqueued == m'.dequeued + m'.queue;
    }
  }

  lemma DequeueSectionKeepsInv<T>(m: State<T>, t: Thread, woken: set<Thread>)
    requires Separate(m) && Outside(m, t) && |m.queue| <= MAX_TASKS
    requires m.enqueued == m.dequeued + m.queue
    requires Signals(m.producersAsleep, woken)
    requires m.consumersAsleep != {} ==> |m.queue| <= |m.consumersSignalled| + 1
    requires m.producersAsleep != {} ==> MAX_TASKS - |m.queue| <= |m.producersSignalled|
    ensures Inv(DequeueSection(m, t, woken))
  {
    var m' := DequeueSection(m, t, woken);
    if m.queue != [] {
      ProducersWake(m, woken);
      assert Separate(m');
      WokenGrow(m.producersAsleep, m.producersSignalled, woken);
      assert m'.enqueued == m'.dequeued + m'.queue;
    }
  }

  lemma OneLess(s: set<Thread>, t: Thread)
    ensures |s - {t}| == |s| - if t in s then 1 else 0
  {
    if t !in s { assert s - {t} == s; }
  }

  lemma ResumeEnqueueKeepsInv<T>(m: State<T>, t: Thread, woken: set<Thread>)
    requires Inv(m) && Enabled(m, ResumeEnqueue(t, woken))
    ensures Inv(Apply(m, ResumeEnqueue(t, woken)))
  {
    var m0 := ProducerBack(m, t);
    OneLess(m.producersSignalled, t);
    assert Separate(m0);
    EnqueueSectionKeepsInv(m0, t, m.items[t], woken);
  }

  lemma ResumeDequeueKeepsInv<T>(m: State<T>, t: Thread, woken: set<Thread>)
    requires Inv(m) && Enabled(m, ResumeDequeue(t, woken))
    ensures Inv(Apply(m, ResumeDequeue(t, woken)))
  {
    var m0 := ConsumerBack(m, t);
    OneLess(m.consumersSignalled, t);
    assert Separate(m0);
    DequeueSectionKeepsInv(m0, t, woken);
  }

  lemma SpuriousKeepsInv<T>(m: State<T>, step: Step<T>)
    requires Inv(m) && Enabled(m, step) && (step.SpuriousProducer? || step.SpuriousConsumer?)
    ensures Inv(Apply(m, step))
  {
    if step.SpuriousProducer? {
      ProducersWake(m, {step.thread});
    } else {
      ConsumersWake(m, {step.thread});
    }
  }

  lemma StepKeepsInv<T>(m: State<T>, step: Step<T>)
    requires Inv(m) && Enabled(m, step)
    ensures Inv(Apply(m, step))
  {
    match step
    case Enqueue(t, x, woken) => EnqueueSectionKeepsInv(m, t, x, woken);
    case Dequeue(t, woken) => DequeueSectionKeepsInv(m, t, woken);
    case ResumeEnqueue(t, woken) => ResumeEnqueueKeepsInv(m, t, woken);
    case ResumeDequeue(t, woken) => ResumeDequeueKeepsInv(m, t, woken);
    case SpuriousProducer(_) => SpuriousKeepsInv(m, step);
    case SpuriousConsumer(_) => SpuriousKeepsInv(m, step);
  }

  lemma {:induction false} RunKeepsInv<T>(m: State<T>, steps: seq<Step<T>>)
    requires Inv(m) && IsRun(m, steps)
    ensures Inv(Run(m, steps))
    decreases |steps|
  {
    if steps != [] {
      StepKeepsInv(m, steps[0]);
      RunKeepsInv(Apply(m, steps[0]), steps[1..]);
    }
  }

  // ---------------------------------------------------------------- theorems

  /** No wakeup is lost, in any interleaving with barging and spurious wakeups. */
  lemma NeverLosesWakeup<T>(steps: seq<Step<T>>)
    requires IsRun(Init(), steps)
    ensures NoLostWakeup(Run(Init(), steps))
  {
    RunKeepsInv(Init<T>(), steps);
  }

  /** Producers and consumers never sleep at the same time unless enough signalled
      threads are on their way to account for every slot of the buffer. */
  lemma NeverBothStuck<T>(steps: seq<Step<T>>)
    requires IsRun(Init(), steps)
    ensures var m := Run(Init(), steps);
      m.producersAsleep != {} && m.consumersAsleep != {} ==>
        |m.producersSignalled| + |m.consumersSignalled| >= MAX_TASKS
  {
    RunKeepsInv(Init<T>(), steps);
  }

  /** In every interleaving: dequeued items, then the buffer, are the enqueued items in order. */
  lemma Fifo<T>(steps: seq<Step<T>>)
    requires IsRun(Init(), steps)
    ensures var m := Run(Init(), steps);
      m.enqueued == m.dequeued + m.queue && |m.queue| <= MAX_TASKS
  {
    RunKeepsInv(Init<T>(), steps);
  }

  function TraceOf<T>(m: State<T>): Q.Trace<T> {
    Q.Trace(m.queue, m.enqueued, m.dequeued)
  }

  function OpsOf<T>(m: State<T>, step: Step<T>): seq<Q.Op<T>>
    requires Enabled(m, step)
  {
    match step
    case Enqueue(_, x, _) => [Q.Add(x)]
    case ResumeEnqueue(t, _) => [Q.Add(m.items[t])]
    case Dequeue(_, _) => [Q.Take]
    case ResumeDequeue(_, _) => [Q.Take]
    case _ => []
  }

  /** One operation for every section a thread runs, in the order they are run. */
  function AllOps<T>(m: State<T>, steps: seq<Step<T>>): seq<Q.Op<T>>
    requires IsRun(m, steps)
    decreases |steps|
  {
    if steps == [] then [] else OpsOf(m, steps[0]) + AllOps(Apply(m, steps[0]), steps[1..])
  }

  /** Whatever the threads do, the buffer behaves as the bounded queue that the
      non-blocking rings implement too: blocking is refusing and trying again. */
  lemma {:induction false} RefinesBoundedQueue<T>(m: State<T>, steps: seq<Step<T>>)
    requires Inv(m) && IsRun(m, steps)
    ensures TraceOf(Run(m, steps)) == Q.PerformAll(TraceOf(m), MAX_TASKS, AllOps(m, steps))
    decreases |steps|
  {
    if steps != [] {
      StepKeepsInv(m, steps[0]);
      var m' := Apply(m, steps[0]);
      RefinesBoundedQueue(m', steps[1..]);
      OneOperation(m, steps[0]);
      Q.PerformConcat(TraceOf(m), MAX_TASKS, OpsOf(m, steps[0]), AllOps(m', steps[1..]));
    }
  }

  lemma OneOperation<T>(m: State<T>, step: Step<T>)
    requires Inv(m) && Enabled(m, step)
    ensures TraceOf(Apply(m, step)) == Q.PerformAll(TraceOf(m), MAX_TASKS, OpsOf(m, step))
  {
    var ops := OpsOf(m, step);
    assert ops != [] ==> ops[..0] == [];
  }

  predicate Resumes<T>(step: Step<T>) {
    step.ResumeEnqueue? || step.ResumeDequeue?
  }

  /** Nobody is waiting for the mutex. */
  predicate Quiescent<T>(m: State<T>) {
    m.producersWoken == {} && m.consumersWoken == {}
  }

  /** A quiescent buffer leaves asleep only threads that could not proceed, and
      never both kinds. */
  lemma SleepersCannotProceed<T>(m: State<T>)
    requires Inv(m) && Quiescent(m)
    ensures m.consumersAsleep != {} ==> m.queue == [] && m.producersAsleep == {}
    ensures m.producersAsleep != {} ==> |m.queue| == MAX_TASKS && m.consumersAsleep == {}
  {
  }

  function Calls<T>(m: State<T>): nat {
    |m.producersAsleep| + |m.producersWoken| + |m.consumersAsleep| + |m.consumersWoken|
  }

  /** Bounds the remaining work of the woken threads: each resumption either
      finishes a call or puts a woken thread back to sleep. */
  function Work<T>(m: State<T>): nat {
    Calls(m) * (Calls(m) + 1) + |m.producersWoken| + |m.consumersWoken|
  }

  lemma WakingMoves(asleep: set<Thread>, awake: set<Thread>, woken: set<Thread>)
    requires woken <= asleep && asleep !! awake
    ensures |asleep - woken| + |awake + woken| == |asleep| + |awake|
  {
    assert asleep == (asleep - woken) + woken;
    assert awake !! woken;
  }

  lemma EnqueueWork<T>(m: State<T>, t: Thread, woken: set<Thread>)
    requires Separate(m) && Enabled(m, ResumeEnqueue(t, woken))
    ensures Work(Apply(m, ResumeEnqueue(t, woken))) < Work(m)
  {
    hide Work;
    var m' := Apply(m, ResumeEnqueue(t, woken));
    OneLess(m.producersWoken, t);
    if |m.queue| == MAX_TASKS {
      assert |m'.producersAsleep| == |m.producersAsleep| + 1;
      BackToSleep(m, m');
    } else {
      WakingMoves(m.consumersAsleep, m.consumersWoken, woken);
      WorkBound(m, m');
    }
  }

  lemma DequeueWork<T>(m: State<T>, t: Thread, woken: set<Thread>)
    requires Separate(m) && Enabled(m, ResumeDequeue(t, woken))
    ensures Work(Apply(m, ResumeDequeue(t, woken))) < Work(m)
  {
    hide Work;
    var m' := Apply(m, ResumeDequeue(t, woken));
    OneLess(m.consumersWoken, t);
    if m.queue == [] {
      assert |m'.consumersAsleep| == |m.consumersAsleep| + 1;
      BackToSleep(m, m');
    } else {
      WakingMoves(m.producersAsleep, m.producersWoken, woken);
      WorkBound(m, m');
    }
  }

  lemma BackToSleep<T>(m: State<T>, m': State<T>)
    requires Calls(m') == Calls(m)
    requires |m'.producersWoken| + |m'.consumersWoken| < |m.producersWoken| + |m.consumersWoken|
    ensures Work(m') < Work(m)
  {
  }

  lemma WorkBound<T>(m: State<T>, m': State<T>)
    requires Calls(m') == Calls(m) - 1
    ensures Work(m') < Work(m)
  {
    ProductShrinks(Calls(m));
  }

  lemma WorkShrinks<T>(m: State<T>, step: Step<T>)
    requires Inv(m) && Enabled(m, step) && Resumes(step)
    ensures Work(Apply(m, step)) < Work(m)
  {
    if step.ResumeEnqueue? {
      EnqueueWork(m, step.thread, step.woken);
    } else {
      DequeueWork(m, step.thread, step.woken);
    }
  }

  lemma ProductShrinks(n: nat)
    requires n > 0
    ensures (n - 1) * n + n < n * (n + 1)
  {
  }

  /** Left to themselves the woken threads come to rest after boundedly many
      resumptions; whoever is then still asleep could not proceed. */
  lemma {:induction false} WokenThreadsSettle<T>(m: State<T>, steps: seq<Step<T>>)
    requires Inv(m) && IsRun(m, steps)
    requires forall k :: 0 <= k < |steps| ==> Resumes(steps[k])
    ensures |steps| <= Work(m)
    ensures Quiescent(Run(m, steps)) ==>
      var m' := Run(m, steps);
      && (m'.consumersAsleep != {} ==> m'.queue == [])
      && (m'.producersAsleep != {} ==> |m'.queue| == MAX_TASKS)
    decreases |steps|
  {
    if steps == [] {
      if Quiescent(m) { SleepersCannotProceed(m); }
    } else {
      WorkShrinks(m, steps[0]);
      StepKeepsInv(m, steps[0]);
      WokenThreadsSettle(Apply(m, steps[0]), steps[1..]);
    }
  }

  /** Until it is quiescent, some woken thread can take its step. */
  lemma WokenThreadCanResume<T>(m: State<T>) returns (step: Step<T>)
    requires Inv(m) && !Quiescent(m)
    ensures Resumes(step) && Enabled(m, step)
  {
    if m.producersWoken != {} {
      var t :| t in m.producersWoken;
      step := ResumeEnqueue(t, m.consumersAsleep);
    } else {
      var t :| t in m.consumersWoken;
      step := ResumeDequeue(t, m.producersAsleep);
    }
  }

  /** Hence whenever a sleeper could proceed, woken threads exist, and any order
      of resuming them leads to a state in which no sleeper could. */
  lemma {:induction false} AlwaysSettles<T>(m: State<T>) returns (steps: seq<Step<T>>)
    requires Inv(m)
    ensures IsRun(m, steps) && Quiescent(Run(m, steps))
    ensures forall k :: 0 <= k < |steps| ==> Resumes(steps[k])
    decreases Work(m)
  {
    if Quiescent(m) {
      steps := [];
    } else {
      var step := WokenThreadCanResume(m);
      WorkShrinks(m, step);
      StepKeepsInv(m, step);
      var rest := AlwaysSettles(Apply(m, step));
      steps := [step] + rest;
      assert steps[1..] == rest;
    }
  }
}
