/** What holds of the employer after any run, whatever the environment does. */
module EmployerInvariants {
  import opened Options
  import opened EmployerState

  // ------------------------------------------------------------- statements

  /** How often a task was handed to a socket, got through, and timed out. */
  datatype Tally = Tally(attempts: nat, delivered: nat, timeouts: nat)

  function Bump(t: Tally, e: Event, task: nat): Tally {
    match e
    case Attempt(i, _, ok) =>
      if i != task then t
      else t.(attempts := t.attempts + 1, delivered := t.delivered + if ok then 1 else 0)
    case TimedOut(i) => if i != task then t else t.(timeouts := t.timeouts + 1)
    case _ => t
  }

  function TallyOf(log: seq<Event>, task: nat): Tally {
    if log == [] then Tally(0, 0, 0)
    else Bump(TallyOf(log[..|log| - 1], task), log[|log| - 1], task)
  }

  predicate Balanced(a: Assignment, t: Tally) {
    var inFlight := if a.sent then 1 else 0;
    t.attempts == a.retries + inFlight && t.delivered == t.timeouts + inFlight
  }

  ghost predicate Concerns(e: Event, task: nat) {
    (e.Attempt? || e.TimedOut? || e.Finished?) && e.task == task
  }

  ghost predicate OnConnection(e: Event, conn: nat) {
    (e.ConfigDone? || e.Attempt?) && e.conn == conn
  }

  /** A finished task is never sent, timed out or finished again. */
  ghost predicate QuietOnceFinished(log: seq<Event>) {
    forall p, q :: 0 <= p < q < |log| && log[p].Finished? ==> !Concerns(log[q], log[p].task)
  }

  /** A connection is configured at most once ... */
  ghost predicate ConfiguredOnce(log: seq<Event>) {
    forall p, q :: 0 <= p < q < |log| && log[p].ConfigDone? ==> log[q] != log[p]
  }

  /** ... and carries a data chunk only after that. */
  ghost predicate ConfiguredFirst(log: seq<Event>) {
    forall q :: 0 <= q < |log| && log[q].Attempt? ==> ConfigDone(log[q].conn) in log[..q]
  }

  /** The assignment table agrees with the history. */
  ghost predicate Ledger(asgs: seq<Assignment>, log: seq<Event>) {
    && (forall i :: 0 <= i < |asgs| ==>
          Balanced(asgs[i], TallyOf(log, i)) && (asgs[i].completed <==> Finished(i) in log))
    && QuietOnceFinished(log)
    && ConfiguredOnce(log)
    && ConfiguredFirst(log)
  }

  ghost predicate Distinct(es: seq<Employee>) {
    forall j, k :: 0 <= j < k < |es| ==>
      es[j].ip != es[k].ip && (es[j].conn.Some? ==> es[j].conn != es[k].conn)
  }

  /** One employee's connection agrees with the history. */
  ghost predicate Linked(e: Employee, nextConn: nat, log: seq<Event>) {
    && e.active <= MAX_ACTIVE
    && (e.conn.Some? ==> e.conn.value < nextConn
                         && (e.stage == Configured <==> ConfigDone(e.conn.value) in log))
  }

  ghost predicate Roster(es: seq<Employee>, nextConn: nat, log: seq<Event>) {
    && |es| <= MAX_EMPLOYEES
    && Distinct(es)
    && (forall j :: 0 <= j < |es| ==> Linked(es[j], nextConn, log))
    && (forall e, c: nat :: e in log && OnConnection(e, c) ==> c < nextConn)
  }

  ghost predicate Inv(s: State) {
    Roster(s.employees, s.nextConn, s.log) && Ledger(s.assignments, s.log)
  }

  // ------------------------------------------------------------ preservation

  lemma TallySnoc(log: seq<Event>, e: Event, task: nat)
    ensures TallyOf(log + [e], task) == Bump(TallyOf(log, task), e, task)
  {
    assert (log + [e])[..|log|] == log;
  }

  /** Appending one event keeps the trace properties when the event itself is in order. */
  lemma LedgerExtends(asgs: seq<Assignment>, asgs': seq<Assignment>, log: seq<Event>, e: Event)
    requires Ledger(asgs, log) && |asgs'| == |asgs|
    requires forall i :: 0 <= i < |asgs| ==>
      Balanced(asgs'[i], Bump(TallyOf(log, i), e, i))
      && (asgs'[i].completed <==> asgs[i].completed || e == Finished(i))
    requires forall i :: Concerns(e, i) ==> Finished(i) !in log
    requires e.ConfigDone? ==> e !in log
    requires e.Attempt? ==> ConfigDone(e.conn) in log
    ensures Ledger(asgs', log + [e])
  {
    var log' := log + [e];
    forall i | 0 <= i < |asgs'|
      ensures Balanced(asgs'[i], TallyOf(log', i)) && (asgs'[i].completed <==> Finished(i) in log')
    {
      TallySnoc(log, e, i);
      assert Finished(i) in log' <==> Finished(i) in log || e == Finished(i);
    }
    forall p, q | 0 <= p < q < |log'| && log'[p].Finished?
      ensures !Concerns(log'[q], log'[p].task)
    {
      assert log'[p] == log[p];
    }
    forall q | 0 <= q < |log'| && log'[q].Attempt?
      ensures ConfigDone(log'[q].conn) in log'[..q]
    {
      if q < |log| { assert log'[..q] == log[..q]; } else { assert log'[..q] == log; }
    }
  }

  /** One employee changes and at most one event is appended. */
  lemma RosterUpdates(es: seq<Employee>, j: nat, e': Employee, n: nat, n': nat,
                      log: seq<Event>, log': seq<Event>)
    requires Roster(es, n, log) && j < |es| && n <= n'
    requires e'.ip == es[j].ip
    requires e'.conn.None? || e'.conn == es[j].conn || e'.conn == Some(n)
    requires Linked(e', n', log')
    requires log <= log'
    requires forall e, c: nat :: e in log' && e !in log && OnConnection(e, c) ==>
      c < n' && (forall k :: 0 <= k < |es| && k != j && e == ConfigDone(c) ==> es[k].conn != Some(c))
    ensures Roster(es[j := e'], n', log')
  {
    forall k | 0 <= k < |es| && k != j
      ensures Linked(es[k], n', log')
    {
      if es[k].conn.Some? {
        var c := es[k].conn.value;
        assert OnConnection(ConfigDone(c), c);
        assert ConfigDone(c) in log' <==> ConfigDone(c) in log;
      }
    }
  }

  lemma KeepsDiscover(s: State, ip: string, id: string, now: int, up: bool)
    requires Inv(s)
    ensures Inv(ApplyDiscover(s, ip, id, now, up))
  {
    var s' := ApplyDiscover(s, ip, id, now, up);
    var e := Established(s.nextConn);
    if s'.log != s.log {
      LedgerExtends(s.assignments, s.assignments, s.log, e);
      assert OnConnection(ConfigDone(s.nextConn), s.nextConn);
      assert ConfigDone(s.nextConn) !in s.log;
    }
    var j := FindIp(s.employees, ip);
    if j < |s.employees| {
      RosterUpdates(s.employees, j, s'.employees[j], s.nextConn, s'.nextConn, s.log, s'.log);
    } else {
      forall k | 0 <= k < |s.employees| ensures Linked(s.employees[k], s'.nextConn, s'.log) {
        assert Linked(s.employees[k], s.nextConn, s.log);
      }
    }
  }

  lemma KeepsReceive(s: State, j: nat, incoming: Incoming)
    requires Inv(s)
    ensures Inv(ApplyReceive(s, j, incoming))
  {
    var s' := ApplyReceive(s, j, incoming);
    if s' != s {
      if incoming.Result? {
        var i := FindOpen(s.assignments, incoming.taskId);
        LedgerExtends(s.assignments, s'.assignments, s.log, Finished(i));
      }
      assert Linked(s.employees[j], s.nextConn, s.log);
      RosterUpdates(s.employees, j, s'.employees[j], s.nextConn, s.nextConn, s.log, s'.log);
    }
  }

  lemma KeepsConfigure(s: State, j: nat, ok: bool)
    requires Inv(s)
    ensures Inv(ApplyConfigure(s, j, ok))
  {
    var s' := ApplyConfigure(s, j, ok);
    if s' != s {
      if ok {
        LedgerExtends(s.assignments, s.assignments, s.log, ConfigDone(s.employees[j].conn.value));
      }
      RosterUpdates(s.employees, j, s'.employees[j], s.nextConn, s.nextConn, s.log, s'.log);
    }
  }

  lemma KeepsAssign(s: State, i: nat, now: int)
    requires Inv(s)
    ensures Inv(ApplyAssign(s, i, now))
  {
    var s' := ApplyAssign(s, i, now);
    if s' != s {
      var j := FindFree(s.employees);
      RosterUpdates(s.employees, j, s'.employees[j], s.nextConn, s.nextConn, s.log, s.log);
    }
  }

  lemma KeepsSend(s: State, i: nat, ok: bool)
    requires Inv(s)
    ensures Inv(ApplySend(s, i, ok))
  {
    var s' := ApplySend(s, i, ok);
    if s' != s {
      var j := FindIp(s.employees, s.assignments[i].employeeIp);
      var e := s.employees[j];
      assert Linked(e, s.nextConn, s.log);
      LedgerExtends(s.assignments, s'.assignments, s.log, Attempt(i, e.conn.value, ok));
      RosterUpdates(s.employees, j, s'.employees[j], s.nextConn, s.nextConn, s.log, s'.log);
      assert s.employees[j := s'.employees[j]] == s'.employees;
    }
  }

  lemma KeepsExpire(s: State, i: nat, now: int)
    requires Inv(s)
    ensures Inv(ApplyExpire(s, i, now))
  {
    var s' := ApplyExpire(s, i, now);
    if s' != s {
      LedgerExtends(s.assignments, s'.assignments, s.log, TimedOut(i));
      var j := FindIp(s.employees, s.assignments[i].employeeIp);
      if j < |s.employees| {
        RosterUpdates(s.employees, j, s'.employees[j], s.nextConn, s.nextConn, s.log, s'.log);
      } else {
        forall k | 0 <= k < |s.employees| ensures Linked(s.employees[k], s.nextConn, s'.log) {
          assert Linked(s.employees[k], s.nextConn, s.log);
        }
      }
    }
  }

  lemma {:induction false} KeepsSweep(es: seq<Employee>, i: nat, now: int, n: nat, log: seq<Event>)
    requires i <= |es| && Roster(es, n, log)
    ensures Roster(Sweep(es, i, now), n, log)
    decreases |es| - i
  {
    if i < |es| {
      if Stale(es[i], now) {
        KeepsSweep(RemoveAt(es, i), i, now, n, log);
      } else {
        KeepsSweep(es, i + 1, now, n, log);
      }
    }
  }

  lemma StepKeepsInv(s: State, step: Step)
    requires Inv(s)
    ensures Inv(Apply(s, step))
  {
    match step
    case Discover(ip, id, now, up) => KeepsDiscover(s, ip, id, now, up);
    case Receive(j, incoming) => KeepsReceive(s, j, incoming);
    case Configure(j, ok) => KeepsConfigure(s, j, ok);
    case Assign(i, now) => KeepsAssign(s, i, now);
    case Send(i, ok) => KeepsSend(s, i, ok);
    case Expire(i, now) => KeepsExpire(s, i, now);
    case DropStale(now) => KeepsSweep(s.employees, 0, now, s.nextConn, s.log);
  }

  lemma {:induction false} RunKeepsInv(s: State, steps: seq<Step>)
    requires Inv(s)
    ensures Inv(Run(s, steps))
    decreases |steps|
  {
    if steps != [] {
      RunKeepsInv(s, steps[..|steps| - 1]);
      StepKeepsInv(Run(s, steps[..|steps| - 1]), steps[|steps| - 1]);
    }
  }

  lemma InitInv(tasks: seq<string>)
    ensures Inv(Init(tasks))
  {
  }

  // ---------------------------------------------------------------- theorems

  /** Sends are accounted for in every run: a task got through at most once more
      than it timed out, and every attempt is a retry or still in flight. */
  lemma DeliveryAccounting(tasks: seq<string>, steps: seq<Step>, i: nat)
    requires i < |tasks|
    ensures var s := Run(Init(tasks), steps);
      && |s.assignments| == |tasks|
      && var t, a := TallyOf(s.log, i), s.assignments[i];
      && t.attempts == a.retries + (if a.sent then 1 else 0)
      && t.delivered == t.timeouts + (if a.sent then 1 else 0)
      && t.delivered <= t.timeouts + 1
  {
    InitInv(tasks);
    RunKeepsInv(Init(tasks), steps);
    RunKeepsTables(Init(tasks), steps);
  }

  /** In every run a task finishes at most once, and then nothing more happens to it. */
  lemma NothingAfterFinish(tasks: seq<string>, steps: seq<Step>, p: nat, q: nat)
    requires p < q < |Run(Init(tasks), steps).log|
    requires Run(Init(tasks), steps).log[p].Finished?
    ensures var log := Run(Init(tasks), steps).log;
      !Concerns(log[q], log[p].task)
  {
    InitInv(tasks);
    RunKeepsInv(Init(tasks), steps);
  }

  /** In every run, across failures and reconnects, a connection is configured at
      most once and before the first data chunk sent on it. */
  lemma ConfigOncePerConnection(tasks: seq<string>, steps: seq<Step>)
    ensures var log := Run(Init(tasks), steps).log;
      && ConfiguredOnce(log)
      && ConfiguredFirst(log)
  {
    InitInv(tasks);
    RunKeepsInv(Init(tasks), steps);
  }

  /** The employee table stays well formed in every run. */
  lemma EmployeesWellFormed(tasks: seq<string>, steps: seq<Step>)
    ensures var es := Run(Init(tasks), steps).employees;
      && |es| <= MAX_EMPLOYEES
      && (forall j, k :: 0 <= j < k < |es| ==> es[j].ip != es[k].ip)
      && (forall j :: 0 <= j < |es| ==> 0 <= es[j].active <= MAX_ACTIVE)
  {
    InitInv(tasks);
    RunKeepsInv(Init(tasks), steps);
  }

  /** A step only appends to the history and never takes a completion back. */
  ghost predicate Grows(s: State, s': State) {
    && s.log <= s'.log
    && |s'.assignments| == |s.assignments|
    && forall i :: 0 <= i < |s.assignments| ==>
         && s'.assignments[i].taskId == s.assignments[i].taskId
         && (s.assignments[i].completed ==> s'.assignments[i] == s.assignments[i])
  }

  lemma StepGrows(s: State, step: Step)
    ensures Grows(s, Apply(s, step))
  {
  }

  lemma {:induction false} RunKeepsTables(s: State, steps: seq<Step>)
    ensures Grows(s, Run(s, steps))
    decreases |steps|
  {
    hide Apply;
    if steps != [] {
      var front := steps[..|steps| - 1];
      RunKeepsTables(s, front);
      StepGrows(Run(s, front), steps[|steps| - 1]);
    }
  }

  // ------------------------------------------------------ dropping employees

  lemma RemovesOne(es: seq<Employee>, i: nat)
    requires i < |es|
    ensures multiset(RemoveAt(es, i)) == multiset(es) - multiset{es[i]}
  {
    var n := |es| - 1;
    var r := RemoveAt(es, i);
    assert es == es[..n] + [es[n]];
    if i < n {
      assert es == es[..i] + [es[i]] + es[i + 1..n] + [es[n]];
      assert r == es[..i] + [es[n]] + es[i + 1..n];
    } else {
      assert r == es[..n];
    }
  }

  /** Whatever the swaps do to the order, the sweep keeps every employee seen
      recently enough exactly as often as before, and no other. */
  lemma {:induction false} SweepKeepsRecent(es: seq<Employee>, i: nat, now: int, e: Employee)
    requires i <= |es|
    requires forall k :: 0 <= k < i ==> !Stale(es[k], now)
    ensures multiset(Sweep(es, i, now))[e] == if Stale(e, now) then 0 else multiset(es)[e]
    decreases |es| - i
  {
    if i == |es| {
      assert Stale(e, now) ==> e !in es;
    } else if Stale(es[i], now) {
      RemovesOne(es, i);
      SweepKeepsRecent(RemoveAt(es, i), i, now, e);
    } else {
      SweepKeepsRecent(es, i + 1, now, e);
    }
  }
}
