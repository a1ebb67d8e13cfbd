/** What the tables record and the clocks decide: nothing times out early or late,
    nobody is dropped early or late, and the records are true.  Everything is
    measured from the steps of the run themselves. */
module EmployerClocks {
  import opened Options
  import opened EmployerState
  import opened EmployerInvariants

  /** The clock at the last broadcast heard from `ip`. */
  function LastHeard(steps: seq<Step>, ip: string): Option<int> {
    if steps == [] then None
    else
      var step := steps[|steps| - 1];
      if step.Discover? && step.ip == ip then Some(step.now) else LastHeard(steps[..|steps| - 1], ip)
  }

  /** The step gives task `i` to an employee. */
  predicate Gives(s: State, step: Step, i: nat) {
    step.Assign? && step.task == i && Pending(s, i) && FindFree(s.employees) < |s.employees|
  }

  datatype Given = Given(now: int, ip: string, id: string)

  function GivenBy(s: State, step: Step, i: nat): Given
    requires Gives(s, step, i)
  {
    var e := s.employees[FindFree(s.employees)];
    Given(step.now, e.ip, e.id)
  }

  /** When, and to whom, task `i` was last given. */
  function LastGiven(s: State, steps: seq<Step>, i: nat): Option<Given> {
    if steps == [] then None
    else
      var front, step := steps[..|steps| - 1], steps[|steps| - 1];
      var m := Run(s, front);
      if Gives(m, step, i) then Some(GivenBy(m, step, i)) else LastGiven(s, front, i)
  }

  /** The step brings the result of task `i`. */
  predicate Finishes(s: State, step: Step, i: nat) {
    && step.Receive? && step.employee < |s.employees| && s.employees[step.employee].conn.Some?
    && step.incoming.Result? && FindOpen(s.assignments, step.incoming.taskId) == i < |s.assignments|
  }

  /** The clock when the result of task `i` came in. */
  function FinishedAt(s: State, steps: seq<Step>, i: nat): Option<int> {
    if steps == [] then None
    else
      var front, step := steps[..|steps| - 1], steps[|steps| - 1];
      if Finishes(Run(s, front), step, i) then Some(step.incoming.now) else FinishedAt(s, front, i)
  }

  predicate Addressed(steps: seq<Step>) {
    forall k :: 0 <= k < |steps| && steps[k].Discover? ==> steps[k].ip != ""
  }

  // --------------------------------------------------------------- invariant

  ghost predicate Heard(es: seq<Employee>, heard: string -> Option<int>) {
    forall j :: 0 <= j < |es| ==> es[j].ip != "" && heard(es[j].ip) == Some(es[j].lastSeen)
  }

  ghost predicate GivenAt(a: Assignment, given: Option<Given>) {
    && (a.employeeIp != "" ==> given == Some(Given(a.assignedTime, a.employeeIp, a.employeeId)))
    && (a.sent ==> a.employeeIp != "")
  }

  ghost predicate Timed(s: State, steps: seq<Step>, now: State) {
    && Heard(now.employees, ip => LastHeard(steps, ip))
    && forall i :: 0 <= i < |now.assignments| ==> GivenAt(now.assignments[i], LastGiven(s, steps, i))
  }

  lemma HeardStays(es: seq<Employee>, es': seq<Employee>, heard: string -> Option<int>)
    requires Heard(es, heard)
    requires forall e :: e in es' ==> exists d :: d in es && d.ip == e.ip && d.lastSeen == e.lastSeen
    ensures Heard(es', heard)
  {
    forall j | 0 <= j < |es'| ensures es'[j].ip != "" && heard(es'[j].ip) == Some(es'[j].lastSeen) {
      assert es'[j] in es';
      var d :| d in es && d.ip == es'[j].ip && d.lastSeen == es'[j].lastSeen;
    }
  }

  lemma StepHeard(m: State, step: Step, heard: string -> Option<int>, heard': string -> Option<int>)
    requires Inv(m) && Heard(m.employees, heard)
    requires step.Discover? ==> step.ip != ""
    requires forall ip :: heard'(ip) == if step.Discover? && step.ip == ip then Some(step.now) else heard(ip)
    ensures Heard(Apply(m, step).employees, heard')
  {
    var es, es' := m.employees, Apply(m, step).employees;
    if step.DropStale? {
      SweepLeaves(es, step.now);
      HeardStays(es, es', heard');
    } else if !step.Discover? {
      SameSeen(m, step);
    }
  }

  lemma SweepLeaves(es: seq<Employee>, now: int)
    ensures forall e :: e in Sweep(es, 0, now) ==> e in es
  {
    var es' := Sweep(es, 0, now);
    forall e | e in es' ensures e in es {
      SweepKeepsRecent(es, 0, now, e);
      assert e in multiset(es');
    }
  }

  /** Only a broadcast changes when an employee was last seen. */
  lemma SameSeen(m: State, step: Step)
    requires !step.Discover? && !step.DropStale?
    ensures var es, es' := m.employees, Apply(m, step).employees;
      |es'| == |es| && forall j :: 0 <= j < |es| ==> es'[j].ip == es[j].ip && es'[j].lastSeen == es[j].lastSeen
  {
  }

  lemma StepGiven(m: State, step: Step, heard: string -> Option<int>, i: nat, given: Option<Given>)
    requires Heard(m.employees, heard) && i < |m.assignments| && GivenAt(m.assignments[i], given)
    ensures GivenAt(Apply(m, step).assignments[i], if Gives(m, step, i) then Some(GivenBy(m, step, i)) else given)
  {
  }

  lemma {:induction false} RunTimed(s: State, steps: seq<Step>)
    requires Inv(s) && Timed(s, [], s) && Addressed(steps)
    ensures Timed(s, steps, Run(s, steps))
    decreases |steps|
  {
    if steps != [] {
      var front, step := steps[..|steps| - 1], steps[|steps| - 1];
      var m := Run(s, front);
      RunTimed(s, front);
      RunKeepsInv(s, front);
      StepHeard(m, step, ip => LastHeard(front, ip), ip => LastHeard(steps, ip));
      forall i | 0 <= i < |Apply(m, step).assignments|
        ensures GivenAt(Apply(m, step).assignments[i], LastGiven(s, steps, i))
      {
        StepGrows(m, step);
        StepGiven(m, step, ip => LastHeard(front, ip), i, LastGiven(s, front, i));
      }
    }
  }

  lemma InitTimed(tasks: seq<string>)
    ensures Inv(Init(tasks)) && Timed(Init(tasks), [], Init(tasks))
  {
    InitInv(tasks);
  }

  // ---------------------------------------------------------------- theorems

  /** In every run: a task is taken back exactly when it is with somebody, is not
      finished, and was given to that employee more than the timeout ago. */
  lemma TimesOutExactly(tasks: seq<string>, steps: seq<Step>, i: nat, now: int)
    requires Addressed(steps) && i < |tasks|
    ensures var s := Run(Init(tasks), steps);
      && |s.assignments| == |tasks|
      && var a, given := s.assignments[i], LastGiven(Init(tasks), steps, i);
      && var s' := Apply(s, Expire(i, now));
      if a.sent && !a.completed && given.Some? && now > given.value.now + TASK_TIMEOUT_SECONDS then
        s'.log == s.log + [TimedOut(i)] && !s'.assignments[i].sent
      else
        s' == s
  {
    InitTimed(tasks);
    RunTimed(Init(tasks), steps);
    RunKeepsTables(Init(tasks), steps);
  }

  ghost predicate Within(steps: seq<Step>, start: int) {
    forall k :: 0 <= k < |steps| ==>
      && (steps[k].Assign? ==> start <= steps[k].now)
      && (steps[k].Expire? ==> steps[k].now <= start + TASK_TIMEOUT_SECONDS)
  }

  lemma {:induction false} GivenWithin(s: State, steps: seq<Step>, i: nat, start: int)
    requires Within(steps, start)
    ensures LastGiven(s, steps, i).Some? ==> LastGiven(s, steps, i).value.now >= start
    decreases |steps|
  {
    if steps != [] {
      GivenWithin(s, steps[..|steps| - 1], i, start);
    }
  }

  /** Nothing times out early: a run that is over within the timeout of its first
      assignment records no timeout. */
  lemma {:induction false} NothingTimesOutEarly(tasks: seq<string>, steps: seq<Step>, start: int)
    requires Addressed(steps) && Within(steps, start)
    ensures forall i :: TimedOut(i) !in Run(Init(tasks), steps).log
    decreases |steps|
  {
    if steps != [] {
      var front, step := steps[..|steps| - 1], steps[|steps| - 1];
      NothingTimesOutEarly(tasks, front, start);
      InitTimed(tasks);
      RunTimed(Init(tasks), front);
      RunKeepsTables(Init(tasks), front);
      var m := Run(Init(tasks), front);
      if step.Expire? && step.task < |m.assignments| {
        GivenWithin(Init(tasks), front, step.task, start);
        TimesOutExactly(tasks, front, step.task, step.now);
      }
    }
  }

  /** In every run: of the employees in the table, stale removal drops exactly
      those whose last broadcast is more than the threshold ago. */
  lemma DroppedExactly(tasks: seq<string>, steps: seq<Step>, now: int, e: Employee)
    requires Addressed(steps) && e in Run(Init(tasks), steps).employees
    ensures var heard := LastHeard(steps, e.ip);
      && heard.Some?
      && (e in Apply(Run(Init(tasks), steps), DropStale(now)).employees <==> now <= heard.value + STALE_THRESHOLD)
  {
    var s := Run(Init(tasks), steps);
    InitTimed(tasks);
    RunTimed(Init(tasks), steps);
    SweepKeepsRecent(s.employees, 0, now, e);
    var es' := Sweep(s.employees, 0, now);
    assert e in es' <==> e in multiset(es');
    assert e in multiset(s.employees);
  }

  // ----------------------------------------------------------------- records

  /** What each entry of the table says about who has the task, since when, and
      when it came back, is what happened in the run. */
  lemma RecordsTrue(tasks: seq<string>, steps: seq<Step>, i: nat)
    requires Addressed(steps) && i < |tasks|
    ensures var s := Run(Init(tasks), steps);
      && |s.assignments| == |tasks|
      && var a := s.assignments[i];
      && a.taskId == tasks[i]
      && (a.sent ==> LastGiven(Init(tasks), steps, i) == Some(Given(a.assignedTime, a.employeeIp, a.employeeId)))
      && (a.completed ==> FinishedAt(Init(tasks), steps, i) == Some(a.completedTime))
      && (!a.completed ==> FinishedAt(Init(tasks), steps, i) == None)
  {
    InitTimed(tasks);
    RunTimed(Init(tasks), steps);
    RunKeepsTables(Init(tasks), steps);
    RunFinished(tasks, steps, i);
  }

  lemma {:induction false} RunFinished(tasks: seq<string>, steps: seq<Step>, i: nat)
    requires i < |tasks|
    ensures var s := Run(Init(tasks), steps);
      && |s.assignments| == |tasks|
      && FinishedAt(Init(tasks), steps, i)
         == if s.assignments[i].completed then Some(s.assignments[i].completedTime) else None
    decreases |steps|
  {
    if steps != [] {
      var front, step := steps[..|steps| - 1], steps[|steps| - 1];
      RunFinished(tasks, front, i);
      StepFinished(Run(Init(tasks), front), step, i);
    }
  }

  lemma StepFinished(m: State, step: Step, i: nat)
    requires i < |m.assignments|
    ensures var m' := Apply(m, step);
      && |m'.assignments| == |m.assignments|
      && var a, a' := m.assignments[i], m'.assignments[i];
      if Finishes(m, step, i) then
        a'.completed && a'.completedTime == step.incoming.now
      else
        a'.completed == a.completed && (a.completed ==> a'.completedTime == a.completedTime)
  {
  }

  /** The time an employee has been in the table: as whom it joined, and how many
      tasks it let time out since. */
  datatype Tenure = Tenure(id: string, charges: nat)

  predicate Charges(s: State, step: Step, ip: string) {
    step.Expire? && Overdue(s, step.task, step.now) && s.assignments[step.task].employeeIp == ip
  }

  function TenureOf(s: State, steps: seq<Step>, ip: string): Option<Tenure> {
    if steps == [] then None
    else
      var front, step := steps[..|steps| - 1], steps[|steps| - 1];
      var m, tenure := Run(s, front), TenureOf(s, front, ip);
      if FindIp(m.employees, ip) == |m.employees| then
        if step.Discover? && step.ip == ip then Some(Tenure(step.id, 0)) else None
      else if tenure.Some? && Charges(m, step, ip) then
        Some(tenure.value.(charges := tenure.value.charges + 1))
      else tenure
  }

  ghost predicate Tenured(e: Employee, tenure: Option<Tenure>) {
    tenure.Some? && e.id == tenure.value.id && e.reliability == 100 - 10 * tenure.value.charges
  }

  /** In every run an employee's reliability is 100 less 10 for every task that it
      let time out since it joined. */
  lemma {:induction false} ReliabilityCounts(tasks: seq<string>, steps: seq<Step>, e: Employee)
    requires e in Run(Init(tasks), steps).employees
    ensures Tenured(e, TenureOf(Init(tasks), steps, e.ip))
    decreases |steps|
  {
    if steps != [] {
      var front, step := steps[..|steps| - 1], steps[|steps| - 1];
      var m := Run(Init(tasks), front);
      InitInv(tasks);
      RunKeepsInv(Init(tasks), front);
      var d := Before(m, step, e);
      if d.Some? {
        ReliabilityCounts(tasks, front, d.value);
        assert FindIp(m.employees, e.ip) < |m.employees|;
      }
    }
  }

  /** Where an employee of the table comes from. */
  lemma Before(m: State, step: Step, e: Employee) returns (d: Option<Employee>)
    requires Inv(m) && e in Apply(m, step).employees
    ensures d.None? ==> FindIp(m.employees, e.ip) == |m.employees|
                        && step.Discover? && step.ip == e.ip && step.id == e.id && e.reliability == 100
    ensures d.Some? ==>
      && d.value in m.employees && d.value.ip == e.ip && d.value.id == e.id
      && e.reliability == d.value.reliability - if Charges(m, step, e.ip) then 10 else 0
  {
    hide Ledger;
    hide Linked;
    hide Sweep;
    var es' := Apply(m, step).employees;
    if step.DropStale? {
      SweepLeaves(m.employees, step.now);
      return Some(e);
    }
    var k :| 0 <= k < |es'| && es'[k] == e;
    if k == |m.employees| {
      d := None;
    } else {
      d := Some(m.employees[k]);
    }
  }

  // ------------------------------------------------------------- connections

  /** The step fails on the employee's connection. */
  predicate Breaks(s: State, step: Step, j: nat) {
    match step
    case Receive(k, incoming) => k == j && incoming.Lost?
    case Configure(k, ok) => k == j && !ok && k < |s.employees| && s.employees[k].stage == New
    case Send(i, ok) =>
      && !ok && Pending(s, i) && j < |s.employees| && Reachable(s.employees[j])
      && FindIp(s.employees, s.assignments[i].employeeIp) == j
    case _ => false
  }

  /** A live connection is never replaced: it stays until a step fails on it, and
      is then closed. */
  lemma LiveConnectionStays(s: State, step: Step, j: nat, e': Employee)
    requires Inv(s) && j < |s.employees| && s.employees[j].conn.Some?
    requires e' in Apply(s, step).employees && e'.ip == s.employees[j].ip
    ensures e'.conn == if Breaks(s, step, j) then None else s.employees[j].conn
  {
    hide Ledger;
    hide Linked;
    hide Sweep;
    var es' := Apply(s, step).employees;
    if step.DropStale? {
      SweepLeaves(s.employees, step.now);
    } else {
      var k :| 0 <= k < |es'| && es'[k] == e';
      SameOrder(s, step);
      assert j == k;
    }
  }

  lemma SameOrder(s: State, step: Step)
    requires !step.DropStale?
    ensures var es, es' := s.employees, Apply(s, step).employees;
      && |es| <= |es'| && (forall j :: 0 <= j < |es| ==> es'[j].ip == es[j].ip)
      && (forall j :: |es| <= j < |es'| ==> FindIp(es, es'[j].ip) == |es|)
  {
  }

  /** Whoever can be heard and reached is connected: a broadcast gives an employee
      without a connection a new one, to be configured again, and leaves others alone. */
  lemma HeardIsConnected(s: State, ip: string, id: string, now: int, up: bool)
    requires |s.employees| < MAX_EMPLOYEES || FindIp(s.employees, ip) < |s.employees|
    ensures var es, es' := s.employees, Apply(s, Discover(ip, id, now, up)).employees;
      var j, k := FindIp(es, ip), FindIp(es', ip);
      && k < |es'| && es'[k].lastSeen == now
      && (if j < |es| && es[j].conn.Some? then es'[k].conn == es[j].conn && es'[k].stage == es[j].stage
          else if up then es'[k].conn == Some(s.nextConn) && es'[k].stage == New
          else es'[k].conn == None)
  {
    var es, es' := s.employees, Apply(s, Discover(ip, id, now, up)).employees;
    var j := FindIp(es, ip);
    assert es'[j].ip == ip;
    assert forall k :: 0 <= k < j ==> es'[k].ip == es[k].ip != ip;
  }

  /** A data chunk goes out on the connection of the employee the entry names. */
  lemma SentToNamed(s: State, i: nat, ok: bool)
    requires Apply(s, Send(i, ok)) != s
    ensures var log := Apply(s, Send(i, ok)).log;
      && i < |s.assignments| && |log| == |s.log| + 1 && s.log <= log
      && var event := log[|s.log|];
      && event.Attempt? && event.task == i && event.ok == ok
      && exists e :: e in s.employees && e.ip == s.assignments[i].employeeIp && e.conn == Some(event.conn)
  {
    var e := s.employees[FindIp(s.employees, s.assignments[i].employeeIp)];
    assert e in s.employees;
  }
}
