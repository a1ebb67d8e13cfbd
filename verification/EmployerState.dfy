/** The employer's tables and the steps that change them.

    A step is one loop body of one phase of the employer's main loop, together
    with whatever the environment decided for it: whether a send went through,
    what a peer sent, what the clock said.  A phase is a sequence of steps, a
    round is a sequence of phases, and a run is any sequence of steps. */
module EmployerState {
  import opened Options
  import opened Search

  const MAX_EMPLOYEES: nat := 100
  const MAX_ACTIVE: nat := 3
  const STALE_THRESHOLD: int := 15
  const TASK_TIMEOUT_SECONDS: int := 300

  datatype Stage = New | Configured

  /** `conn` names the TCP connection held in `sockfd`; `None` is -1. */
  datatype Employee = Employee(
    id: string, ip: string, lastSeen: int, active: nat, reliability: int,
    conn: Option<nat>, stage: Stage)

  /** An empty `employeeIp` is what `populate_chunked_tasks` leaves behind. */
  datatype Assignment = Assignment(
    taskId: string, employeeId: string, employeeIp: string, assignedTime: int,
    completedTime: int, sent: bool, completed: bool, retries: nat)

  /** What an observer of the employer sees happen to tasks and connections. */
  datatype Event =
    | Established(conn: nat)
    | ConfigDone(conn: nat)
    | Attempt(task: nat, conn: nat, ok: bool)
    | TimedOut(task: nat)
    | Finished(task: nat)

  datatype State = State(
    employees: seq<Employee>, assignments: seq<Assignment>,
    nextConn: nat, log: seq<Event>)

  /** What one readable employee socket yields. */
  datatype Incoming =
    | Quiet
    | Lost
    | Ignored
    | Result(taskId: string, now: int)

  datatype Step =
    | Discover(ip: string, id: string, now: int, up: bool)
    | Receive(employee: nat, incoming: Incoming)
    | Configure(employee: nat, ok: bool)
    | Assign(task: nat, now: int)
    | Send(task: nat, ok: bool)
    | Expire(task: nat, now: int)
    | DropStale(now: int)

  function Fresh(task: string): Assignment {
    Assignment(task, "", "", 0, 0, false, false, 0)
  }

  function Init(tasks: seq<string>): State {
    State([], seq(|tasks|, i requires 0 <= i < |tasks| => Fresh(tasks[i])), 0, [])
  }

  // ---------------------------------------------------------------- lookups

  function FindIp(es: seq<Employee>, ip: string): (j: nat)
    ensures j <= |es|
    ensures j < |es| ==> es[j].ip == ip
    ensures forall k :: 0 <= k < j ==> es[k].ip != ip
  {
    First(es, (e: Employee) => e.ip == ip)
  }

  predicate Reachable(e: Employee) {
    e.conn.Some? && e.stage == Configured
  }

  predicate CanTake(e: Employee) {
    Reachable(e) && e.active < MAX_ACTIVE
  }

  function FindFree(es: seq<Employee>): (j: nat)
    ensures j <= |es|
    ensures j < |es| ==> CanTake(es[j])
    ensures forall k :: 0 <= k < j ==> !CanTake(es[k])
  {
    First(es, CanTake)
  }

  function FindOpen(asgs: seq<Assignment>, task: string): (i: nat)
    ensures i <= |asgs|
    ensures i < |asgs| ==> !asgs[i].completed && asgs[i].taskId == task
    ensures forall k :: 0 <= k < i ==> asgs[k].completed || asgs[k].taskId != task
  {
    First(asgs, (a: Assignment) => !a.completed && a.taskId == task)
  }

  function Decrement(n: nat): nat {
    if n > 0 then n - 1 else 0
  }

  // ------------------------------------------------------------------ steps

  function ApplyDiscover(s: State, ip: string, id: string, now: int, up: bool): State {
    var j := FindIp(s.employees, ip);
    if j < |s.employees| then
      var e := s.employees[j].(lastSeen := now);
      if e.conn.None? && up then
        s.(employees := s.employees[j := e.(conn := Some(s.nextConn), stage := New)],
           nextConn := s.nextConn + 1, log := s.log + [Established(s.nextConn)])
      else
        s.(employees := s.employees[j := e])
    else if |s.employees| < MAX_EMPLOYEES then
      if up then
        s.(employees := s.employees + [Employee(id, ip, now, 0, 100, Some(s.nextConn), New)],
           nextConn := s.nextConn + 1, log := s.log + [Established(s.nextConn)])
      else
        s.(employees := s.employees + [Employee(id, ip, now, 0, 100, None, New)])
    else
      s
  }

  function ApplyReceive(s: State, j: nat, incoming: Incoming): State {
    if j < |s.employees| && s.employees[j].conn.Some? then
      match incoming
      case Quiet => s
      case Ignored => s
      case Lost => s.(employees := s.employees[j := s.employees[j].(conn := None)])
      case Result(task, now) =>
        var i := FindOpen(s.assignments, task);
        if i < |s.assignments| then
          s.(employees := s.employees[j := s.employees[j].(active := Decrement(s.employees[j].active))],
             assignments := s.assignments[i := s.assignments[i].(completed := true, completedTime := now)],
             log := s.log + [Finished(i)])
        else
          s
    else
      s
  }

  function ApplyConfigure(s: State, j: nat, ok: bool): State {
    if j < |s.employees| && s.employees[j].conn.Some? && s.employees[j].stage == New then
      if ok then
        s.(employees := s.employees[j := s.employees[j].(stage := Configured)],
           log := s.log + [ConfigDone(s.employees[j].conn.value)])
      else
        s.(employees := s.employees[j := s.employees[j].(conn := None)])
    else
      s
  }

  predicate Pending(s: State, i: nat) {
    i < |s.assignments| && !s.assignments[i].sent && !s.assignments[i].completed
  }

  function ApplyAssign(s: State, i: nat, now: int): State {
    if Pending(s, i) then
      var j := FindFree(s.employees);
      if j < |s.employees| then
        var e := s.employees[j];
        s.(employees := s.employees[j := e.(active := e.active + 1)],
           assignments := s.assignments[i := s.assignments[i].(
             employeeId := e.id, employeeIp := e.ip, assignedTime := now)])
      else
        s
    else
      s
  }

  function ApplySend(s: State, i: nat, ok: bool): State {
    if Pending(s, i) then
      var a := s.assignments[i];
      var j := FindIp(s.employees, a.employeeIp);
      if j < |s.employees| && Reachable(s.employees[j]) then
        var c := s.employees[j].conn.value;
        if ok then
          s.(assignments := s.assignments[i := a.(sent := true)],
             log := s.log + [Attempt(i, c, true)])
        else
          s.(employees := s.employees[j := s.employees[j].(conn := None)],
             assignments := s.assignments[i := a.(retries := a.retries + 1)],
             log := s.log + [Attempt(i, c, false)])
      else
        s
    else
      s
  }

  predicate Overdue(s: State, i: nat, now: int) {
    i < |s.assignments| && s.assignments[i].sent && !s.assignments[i].completed
    && now - s.assignments[i].assignedTime > TASK_TIMEOUT_SECONDS
  }

  function Penalise(es: seq<Employee>, ip: string): (r: seq<Employee>) {
    var j := FindIp(es, ip);
    if j < |es| then
      es[j := es[j].(reliability := es[j].reliability - 10, active := Decrement(es[j].active))]
    else
      es
  }

  function ApplyExpire(s: State, i: nat, now: int): State {
    if Overdue(s, i, now) then
      var a := s.assignments[i];
      s.(employees := Penalise(s.employees, a.employeeIp),
         assignments := s.assignments[i := a.(sent := false, retries := a.retries + 1)],
         log := s.log + [TimedOut(i)])
    else
      s
  }

  predicate Stale(e: Employee, now: int) {
    now - e.lastSeen > STALE_THRESHOLD
  }

  /** Overwrites slot `i` with the last employee and shortens the table by one. */
  function RemoveAt(es: seq<Employee>, i: nat): (r: seq<Employee>)
    requires i < |es|
    ensures |r| == |es| - 1
  {
    es[i := es[|es| - 1]][..|es| - 1]
  }

  /** The table `remove_stale_employees` leaves when it resumes at index `i`. */
  function Sweep(es: seq<Employee>, i: nat, now: int): seq<Employee>
    requires i <= |es|
    decreases |es| - i
  {
    if i == |es| then es
    else if Stale(es[i], now) then Sweep(RemoveAt(es, i), i, now)
    else Sweep(es, i + 1, now)
  }

  function Apply(s: State, step: Step): State {
    match step
    case Discover(ip, id, now, up) => ApplyDiscover(s, ip, id, now, up)
    case Receive(j, incoming) => ApplyReceive(s, j, incoming)
    case Configure(j, ok) => ApplyConfigure(s, j, ok)
    case Assign(i, now) => ApplyAssign(s, i, now)
    case Send(i, ok) => ApplySend(s, i, ok)
    case Expire(i, now) => ApplyExpire(s, i, now)
    case DropStale(now) => s.(employees := Sweep(s.employees, 0, now))
  }

  function Run(s: State, steps: seq<Step>): State {
    if steps == [] then s
    else Apply(Run(s, steps[..|steps| - 1]), steps[|steps| - 1])
  }

  lemma RunSnoc(s: State, steps: seq<Step>, step: Step)
    ensures Run(s, steps + [step]) == Apply(Run(s, steps), step)
  {
    assert (steps + [step])[..|steps|] == steps;
  }

  lemma {:induction false} RunConcat(s: State, a: seq<Step>, b: seq<Step>)
    ensures Run(s, a + b) == Run(Run(s, a), b)
    decreases |b|
  {
    if b == [] {
      assert a + b == a;
    } else {
      var b' := b[..|b| - 1];
      RunConcat(s, a, b');
      assert a + b == (a + b') + [b[|b| - 1]];
      RunSnoc(s, a + b', b[|b| - 1]);
    }
  }
}
