/** Load conservation: in a fault-free run every employee's `active_tasks` is
    the number of tasks it has been sent and has not yet returned. */
module EmployerLoad {
  import opened Options
  import opened EmployerState
  import opened EmployerInvariants

  // --------------------------------------------------------------- counting

  /** Unfinished tasks that name `ip` as their employee, sent or not. */
  function Claims(asgs: seq<Assignment>, ip: string): nat {
    if asgs == [] then 0
    else Claims(asgs[..|asgs| - 1], ip) + Weight(asgs[|asgs| - 1], ip)
  }

  function Weight(a: Assignment, ip: string): nat {
    if !a.completed && a.employeeIp == ip then 1 else 0
  }

  /** Tasks sent to `ip` whose result has not arrived. */
  function Outstanding(asgs: seq<Assignment>, ip: string): nat {
    if asgs == [] then 0
    else Outstanding(asgs[..|asgs| - 1], ip) + InFlight(asgs[|asgs| - 1], ip)
  }

  function InFlight(a: Assignment, ip: string): nat {
    if a.sent && !a.completed && a.employeeIp == ip then 1 else 0
  }

  lemma {:induction false} ClaimsUpdate(asgs: seq<Assignment>, i: nat, a: Assignment, ip: string)
    requires i < |asgs|
    ensures Claims(asgs[i := a], ip) == Claims(asgs, ip) - Weight(asgs[i], ip) + Weight(a, ip)
    decreases |asgs|
  {
    var n := |asgs| - 1;
    if i == n {
      assert asgs[i := a][..n] == asgs[..n];
    } else {
      ClaimsUpdate(asgs[..n], i, a, ip);
      assert asgs[i := a][..n] == asgs[..n][i := a];
    }
  }

  lemma {:induction false} NoClaims(asgs: seq<Assignment>, ip: string)
    ensures Claims(asgs, ip) == 0 <==> forall i :: 0 <= i < |asgs| ==> Weight(asgs[i], ip) == 0
    decreases |asgs|
  {
    if asgs != [] {
      NoClaims(asgs[..|asgs| - 1], ip);
      assert forall i :: 0 <= i < |asgs| - 1 ==> asgs[i] == asgs[..|asgs| - 1][i];
    }
  }

  lemma {:induction false} ClaimsAreOutstanding(asgs: seq<Assignment>, ip: string)
    requires ip != "" && Settled(asgs)
    ensures Claims(asgs, ip) == Outstanding(asgs, ip)
    decreases |asgs|
  {
    if asgs != [] {
      assert Settled(asgs[..|asgs| - 1]);
      ClaimsAreOutstanding(asgs[..|asgs| - 1], ip);
    }
  }

  // -------------------------------------------------------------- invariants

  ghost predicate Known(es: seq<Employee>, a: Assignment) {
    !a.completed && a.employeeIp != "" ==> exists j :: 0 <= j < |es| && es[j].ip == a.employeeIp
  }

  /** Every employee's counter is its number of claims. */
  ghost predicate Fair(s: State) {
    && (forall j :: 0 <= j < |s.employees| ==>
          s.employees[j].ip != "" && s.employees[j].active == Claims(s.assignments, s.employees[j].ip))
    && (forall i :: 0 <= i < |s.assignments| ==> Known(s.employees, s.assignments[i]))
  }

  /** A task still to be sent names no employee. */
  ghost predicate Settled(asgs: seq<Assignment>) {
    forall i :: 0 <= i < |asgs| ==> !asgs[i].sent && !asgs[i].completed ==> asgs[i].employeeIp == ""
  }

  /** The state between two rounds of the main loop. */
  ghost predicate Boundary(s: State) {
    Inv(s) && Fair(s) && Settled(s.assignments)
  }

  // ------------------------------------------------------- fault-free inputs

  /** The result finishes a task this employee was sent, or finishes nothing. */
  predicate FromAssignee(s: State, j: nat, task: string) {
    var i := FindOpen(s.assignments, task);
    i < |s.assignments| && j < |s.employees| ==>
      s.assignments[i].sent && s.assignments[i].employeeIp == s.employees[j].ip
  }

  /** Steps in which nothing goes wrong.  A lost connection, a rejected
      configuration and the removal of an idle employee are all allowed. */
  predicate Clean(s: State, step: Step) {
    match step
    case Discover(ip, _, _, _) => ip != ""
    case Receive(j, Result(task, _)) => FromAssignee(s, j, task)
    case Receive(_, _) => true
    case Configure(_, _) => true
    case Assign(_, _) => true
    case Send(_, ok) => ok
    case Expire(i, now) => !Overdue(s, i, now)
    case DropStale(now) =>
      forall j :: 0 <= j < |s.employees| && Stale(s.employees[j], now) ==> s.employees[j].active == 0
  }

  predicate AllClean(s: State, steps: seq<Step>) {
    forall k :: 0 <= k < |steps| ==> Clean(Run(s, steps[..k]), steps[k])
  }

  lemma AllCleanPrefix(s: State, steps: seq<Step>, n: nat)
    requires AllClean(s, steps) && n <= |steps|
    ensures AllClean(s, steps[..n])
  {
    forall k | 0 <= k < n ensures Clean(Run(s, steps[..n][..k]), steps[..n][k]) {
      assert steps[..n][..k] == steps[..k];
    }
  }

  lemma AllCleanLast(s: State, front: seq<Step>, step: Step)
    requires AllClean(s, front + [step])
    ensures AllClean(s, front) && Clean(Run(s, front), step)
  {
    AllCleanPrefix(s, front + [step], |front|);
    assert (front + [step])[..|front|] == front;
    assert (front + [step])[|front|] == step;
  }

  lemma AllCleanConcat(s: State, a: seq<Step>, b: seq<Step>)
    requires AllClean(s, a + b)
    ensures AllClean(s, a) && AllClean(Run(s, a), b)
  {
    AllCleanPrefix(s, a + b, |a|);
    assert (a + b)[..|a|] == a;
    forall k | 0 <= k < |b| ensures Clean(Run(Run(s, a), b[..k]), b[k]) {
      assert (a + b)[..|a| + k] == a + b[..k];
      RunConcat(s, a, b[..k]);
      assert (a + b)[|a| + k] == b[k];
    }
  }

  // ------------------------------------------------------------ preservation

  lemma FairDiscover(s: State, ip: string, id: string, now: int, up: bool)
    requires Inv(s) && Fair(s) && ip != ""
    ensures Fair(ApplyDiscover(s, ip, id, now, up))
  {
    var s' := ApplyDiscover(s, ip, id, now, up);
    var j := FindIp(s.employees, ip);
    if j == |s.employees| {
      forall i | 0 <= i < |s.assignments| ensures Weight(s.assignments[i], ip) == 0 {
        assert Known(s.employees, s.assignments[i]);
      }
      NoClaims(s.assignments, ip);
    }
    forall i | 0 <= i < |s.assignments| ensures Known(s'.employees, s.assignments[i]) {
      KnownStays(s.employees, s'.employees, s.assignments[i]);
    }
  }

  lemma KnownStays(es: seq<Employee>, es': seq<Employee>, a: Assignment)
    requires Known(es, a) && |es| <= |es'|
    requires forall j :: 0 <= j < |es| ==> es'[j].ip == es[j].ip
    ensures Known(es', a)
  {
    if !a.completed && a.employeeIp != "" {
      var j :| 0 <= j < |es| && es[j].ip == a.employeeIp;
      assert es'[j].ip == a.employeeIp;
    }
  }

  lemma FairReceive(s: State, j: nat, incoming: Incoming)
    requires Inv(s) && Fair(s) && Clean(s, Receive(j, incoming))
    ensures Fair(ApplyReceive(s, j, incoming))
    ensures Settled(s.assignments) ==> Settled(ApplyReceive(s, j, incoming).assignments)
  {
    var s' := ApplyReceive(s, j, incoming);
    if s' != s {
      forall i | 0 <= i < |s.assignments| ensures Known(s'.employees, s'.assignments[i]) {
        KnownStays(s.employees, s'.employees, s.assignments[i]);
      }
      if incoming.Result? {
        var i := FindOpen(s.assignments, incoming.taskId);
        forall k | 0 <= k < |s.employees|
          ensures s'.employees[k].active == Claims(s'.assignments, s'.employees[k].ip)
        {
          ClaimsUpdate(s.assignments, i, s'.assignments[i], s.employees[k].ip);
        }
      }
    }
  }

  lemma FairConfigure(s: State, j: nat, ok: bool)
    requires Fair(s)
    ensures Fair(ApplyConfigure(s, j, ok))
  {
    var s' := ApplyConfigure(s, j, ok);
    forall i | 0 <= i < |s.assignments| ensures Known(s'.employees, s'.assignments[i]) {
      KnownStays(s.employees, s'.employees, s.assignments[i]);
    }
  }

  lemma FairAssign(s: State, i: nat, now: int)
    requires Inv(s) && Fair(s)
    requires Pending(s, i) ==> s.assignments[i].employeeIp == ""
    ensures Fair(ApplyAssign(s, i, now))
  {
    var s' := ApplyAssign(s, i, now);
    if s' != s {
      var j := FindFree(s.employees);
      forall k | 0 <= k < |s.employees|
        ensures s'.employees[k].active == Claims(s'.assignments, s'.employees[k].ip)
      {
        ClaimsUpdate(s.assignments, i, s'.assignments[i], s.employees[k].ip);
        assert k != j ==> s.employees[k].ip != s.employees[j].ip;
      }
      forall k | 0 <= k < |s.assignments| ensures Known(s'.employees, s'.assignments[k]) {
        if k == i {
          assert s'.employees[j].ip == s'.assignments[i].employeeIp;
        } else {
          KnownStays(s.employees, s'.employees, s.assignments[k]);
        }
      }
    }
  }

  lemma FairSend(s: State, i: nat)
    requires Fair(s)
    ensures Fair(ApplySend(s, i, true))
  {
    var s' := ApplySend(s, i, true);
    if s' != s {
      forall k | 0 <= k < |s.employees|
        ensures s'.employees[k].active == Claims(s'.assignments, s'.employees[k].ip)
      {
        ClaimsUpdate(s.assignments, i, s'.assignments[i], s.employees[k].ip);
      }
      forall k | 0 <= k < |s.assignments| ensures Known(s'.employees, s'.assignments[k]) {
        assert Known(s.employees, s.assignments[k]);
      }
    }
  }

  lemma RosterRemoves(es: seq<Employee>, i: nat, n: nat, log: seq<Event>)
    requires Roster(es, n, log) && i < |es|
    ensures Roster(RemoveAt(es, i), n, log)
  {
  }

  /** An employee without claims can go. */
  lemma FairRemoves(s: State, i: nat)
    requires Fair(s) && i < |s.employees| && s.employees[i].active == 0
    ensures Fair(s.(employees := RemoveAt(s.employees, i)))
  {
    var es, r := s.employees, RemoveAt(s.employees, i);
    NoClaims(s.assignments, es[i].ip);
    forall k | 0 <= k < |s.assignments| ensures Known(r, s.assignments[k]) {
      var a := s.assignments[k];
      assert Known(es, a) && Weight(a, es[i].ip) == 0;
      if !a.completed && a.employeeIp != "" {
        var j :| 0 <= j < |es| && es[j].ip == a.employeeIp;
        assert j != i;
        assert r[if j == |es| - 1 then i else j].ip == a.employeeIp;
      }
    }
  }

  lemma {:induction false} FairSweep(s: State, i: nat, now: int)
    requires Inv(s) && Fair(s) && i <= |s.employees|
    requires Clean(s, DropStale(now))
    ensures Fair(s.(employees := Sweep(s.employees, i, now)))
    decreases |s.employees| - i
  {
    var es := s.employees;
    if i == |es| {
      assert s.(employees := es) == s;
    } else if Stale(es[i], now) {
      var s' := s.(employees := RemoveAt(es, i));
      RosterRemoves(es, i, s.nextConn, s.log);
      FairRemoves(s, i);
      FairSweep(s', i, now);
      assert s'.(employees := Sweep(RemoveAt(es, i), i, now)) == s.(employees := Sweep(es, i, now));
    } else {
      FairSweep(s, i + 1, now);
    }
  }

  // ------------------------------------------------ exactly when a claim is lost

  /** What a caller can check beforehand: every counter stays the number of claims. */
  predicate Harmless(s: State, step: Step) {
    match step
    case Discover(_, _, _, _) => true
    case Receive(j, Result(task, _)) =>
      var i := FindOpen(s.assignments, task);
      i < |s.assignments| && j < |s.employees| && s.employees[j].conn.Some? ==>
        || s.assignments[i].employeeIp == s.employees[j].ip
        || (s.assignments[i].employeeIp == "" && s.employees[j].active == 0)
    case Receive(_, _) => true
    case Configure(_, _) => true
    case Assign(i, _) =>
      Pending(s, i) && FindFree(s.employees) < |s.employees| ==> s.assignments[i].employeeIp == ""
    case Send(_, _) => true
    case Expire(i, now) => Overdue(s, i, now) ==> s.assignments[i].employeeIp == ""
    case DropStale(now) =>
      forall j :: 0 <= j < |s.employees| && Stale(s.employees[j], now) ==> s.employees[j].active == 0
  }

  lemma ExactReceive(s: State, j: nat, task: string, now: int)
    requires Inv(s) && Fair(s)
    ensures Fair(ApplyReceive(s, j, Result(task, now))) <==> Harmless(s, Receive(j, Result(task, now)))
  {
    var s' := ApplyReceive(s, j, Result(task, now));
    if s' != s {
      var i := FindOpen(s.assignments, task);
      forall k | 0 <= k < |s.employees|
        ensures Claims(s'.assignments, s.employees[k].ip)
                == Claims(s.assignments, s.employees[k].ip) - Weight(s.assignments[i], s.employees[k].ip)
      {
        ClaimsUpdate(s.assignments, i, s'.assignments[i], s.employees[k].ip);
      }
      forall k | 0 <= k < |s.assignments| ensures Known(s'.employees, s'.assignments[k]) {
        KnownStays(s.employees, s'.employees, s.assignments[k]);
      }
      var ip := s.assignments[i].employeeIp;
      if ip != "" && ip != s.employees[j].ip {
        assert Known(s.employees, s.assignments[i]);
        var k :| 0 <= k < |s.employees| && s.employees[k].ip == ip;
        assert s'.employees[k].active != Claims(s'.assignments, s'.employees[k].ip);
      } else {
        assert s'.employees[j].active == Claims(s'.assignments, s'.employees[j].ip)
               <==> Harmless(s, Receive(j, Result(task, now)));
      }
    }
  }

  lemma ExactAssign(s: State, i: nat, now: int)
    requires Inv(s) && Fair(s)
    ensures Fair(ApplyAssign(s, i, now)) <==> Harmless(s, Assign(i, now))
  {
    var s' := ApplyAssign(s, i, now);
    if Harmless(s, Assign(i, now)) {
      if s' != s { FairAssign(s, i, now); }
    } else {
      var j := FindFree(s.employees);
      assert Known(s.employees, s.assignments[i]);
      var k :| 0 <= k < |s.employees| && s.employees[k].ip == s.assignments[i].employeeIp;
      ClaimsUpdate(s.assignments, i, s'.assignments[i], s.employees[k].ip);
      assert s'.employees[k].active != Claims(s'.assignments, s'.employees[k].ip);
    }
  }

  lemma ExactExpire(s: State, i: nat, now: int)
    requires Inv(s) && Fair(s)
    ensures Fair(ApplyExpire(s, i, now)) <==> Harmless(s, Expire(i, now))
  {
    var s' := ApplyExpire(s, i, now);
    if s' != s {
      var a := s.assignments[i];
      forall k | 0 <= k < |s.employees|
        ensures Claims(s'.assignments, s.employees[k].ip) == Claims(s.assignments, s.employees[k].ip)
      {
        ClaimsUpdate(s.assignments, i, s'.assignments[i], s.employees[k].ip);
      }
      assert Known(s.employees, a);
      var j := FindIp(s.employees, a.employeeIp);
      if j < |s.employees| {
        NoClaims(s.assignments, a.employeeIp);
        assert Weight(a, a.employeeIp) == 1;
        assert s'.employees[j].active != Claims(s'.assignments, s'.employees[j].ip);
      } else {
        forall k | 0 <= k < |s.assignments| ensures Known(s'.employees, s'.assignments[k]) {
          assert Known(s.employees, s.assignments[k]);
        }
      }
    }
  }

  lemma FairSendFails(s: State, i: nat)
    requires Fair(s)
    ensures Fair(ApplySend(s, i, false))
  {
    var s' := ApplySend(s, i, false);
    if s' != s {
      forall k | 0 <= k < |s.employees|
        ensures s'.employees[k].active == Claims(s'.assignments, s'.employees[k].ip)
      {
        ClaimsUpdate(s.assignments, i, s'.assignments[i], s.employees[k].ip);
      }
      forall k | 0 <= k < |s.assignments| ensures Known(s'.employees, s'.assignments[k]) {
        KnownStays(s.employees, s'.employees, s.assignments[k]);
      }
    }
  }

  /** Nobody left in the table has the address of a stale employee. */
  lemma SweptAway(es: seq<Employee>, now: int, j: nat, es': seq<Employee>)
    requires Distinct(es) && j < |es| && Stale(es[j], now) && es' == Sweep(es, 0, now)
    ensures forall k :: 0 <= k < |es'| ==> es'[k].ip != es[j].ip
  {
    hide Sweep;
    forall k | 0 <= k < |es'| ensures es'[k].ip != es[j].ip {
      SweepKeepsRecent(es, 0, now, es'[k]);
      assert es'[k] in multiset(es');
      assert es'[k] in es;
    }
  }

  lemma ExactSweep(s: State, now: int)
    requires Inv(s) && Fair(s)
    ensures Fair(Apply(s, DropStale(now))) <==> Harmless(s, DropStale(now))
  {
    if Harmless(s, DropStale(now)) {
      FairSweep(s, 0, now);
    } else {
      var es, es' := s.employees, Sweep(s.employees, 0, now);
      var j :| 0 <= j < |es| && Stale(es[j], now) && es[j].active > 0;
      NoClaims(s.assignments, es[j].ip);
      var i :| 0 <= i < |s.assignments| && Weight(s.assignments[i], es[j].ip) == 1;
      SweptAway(es, now, j, es');
      assert !Known(es', s.assignments[i]);
    }
  }

  /** Each employee's counter is the number of its sent, uncompleted tasks, at most three. */
  ghost predicate LoadsExact(s: State) {
    forall j :: 0 <= j < |s.employees| ==>
      s.employees[j].active == Outstanding(s.assignments, s.employees[j].ip) <= MAX_ACTIVE
  }

  lemma {:induction false} WaitingClaims(asgs: seq<Assignment>, ip: string)
    ensures Outstanding(asgs, ip) <= Claims(asgs, ip)
    ensures (exists i :: 0 <= i < |asgs| && Weight(asgs[i], ip) == 1 && !asgs[i].sent) ==>
      Outstanding(asgs, ip) < Claims(asgs, ip)
    decreases |asgs|
  {
    if asgs != [] {
      var n := |asgs| - 1;
      WaitingClaims(asgs[..n], ip);
      assert forall i :: 0 <= i < n ==> asgs[..n][i] == asgs[i];
    }
  }

  /** Counting claims and counting sent tasks differ exactly by the waiting tasks
      that already name an employee. */
  lemma ExactWhenSettled(s: State)
    requires Inv(s) && Fair(s)
    ensures LoadsExact(s) <==> Settled(s.assignments)
  {
    if Settled(s.assignments) {
      forall j | 0 <= j < |s.employees|
        ensures s.employees[j].active == Outstanding(s.assignments, s.employees[j].ip) <= MAX_ACTIVE
      {
        ClaimsAreOutstanding(s.assignments, s.employees[j].ip);
        assert Linked(s.employees[j], s.nextConn, s.log);
      }
    } else {
      var i :| 0 <= i < |s.assignments| && !s.assignments[i].sent && !s.assignments[i].completed
               && s.assignments[i].employeeIp != "";
      assert Known(s.employees, s.assignments[i]);
      var j :| 0 <= j < |s.employees| && s.employees[j].ip == s.assignments[i].employeeIp;
      assert Weight(s.assignments[i], s.employees[j].ip) == 1;
      WaitingClaims(s.assignments, s.employees[j].ip);
    }
  }

  /** The send phase tries to send the task. */
  predicate Tried(s: State, i: nat) {
    Pending(s, i)
    && (var j := FindIp(s.employees, s.assignments[i].employeeIp);
        j < |s.employees| && Reachable(s.employees[j]))
  }

  /** A send that was tried and failed keeps the claim but leaves the counter
      above the number of sent tasks. */
  lemma FailedSendOvercounts(s: State, i: nat)
    requires Inv(s) && Fair(s) && Tried(s, i)
    ensures Harmless(s, Send(i, false)) && !LoadsExact(Apply(s, Send(i, false)))
  {
    var s' := Apply(s, Send(i, false));
    StepKeepsInv(s, Send(i, false));
    FairSendFails(s, i);
    assert s'.assignments[i].employeeIp != "";
    assert !Settled(s'.assignments);
    ExactWhenSettled(s');
  }

  lemma ClaimsStep(s: State, step: Step)
    requires Inv(s) && Fair(s)
    requires step.Discover? ==> step.ip != ""
    ensures Fair(Apply(s, step)) <==> Harmless(s, step)
  {
    match step
    case Discover(ip, id, now, up) => FairDiscover(s, ip, id, now, up);
    case Receive(j, incoming) =>
      if incoming.Result? { ExactReceive(s, j, incoming.taskId, incoming.now); }
      else { FairReceive(s, j, incoming); }
    case Configure(j, ok) => FairConfigure(s, j, ok);
    case Assign(i, now) => ExactAssign(s, i, now);
    case Send(i, ok) => if ok { FairSend(s, i); } else { FairSendFails(s, i); }
    case Expire(i, now) => ExactExpire(s, i, now);
    case DropStale(now) => ExactSweep(s, now);
  }

  /** From counters that equal the claims, a step keeps them so if and only if it
      is harmless: a result from somebody else, a second assignment of a waiting
      task, a timeout, or dropping a busy employee each leave a claim uncounted.
      They are then the numbers of sent, uncompleted tasks if and only if no
      waiting task names an employee, which a failed send leaves behind. */
  lemma ClaimsStepExact(s: State, step: Step)
    requires Inv(s) && Fair(s)
    requires step.Discover? ==> step.ip != ""
    ensures Fair(Apply(s, step)) <==> Harmless(s, step)
    ensures Harmless(s, step) ==> (LoadsExact(Apply(s, step)) <==> Settled(Apply(s, step).assignments))
  {
    ClaimsStep(s, step);
    if Harmless(s, step) {
      StepKeepsInv(s, step);
      ExactWhenSettled(Apply(s, step));
    }
  }

  // ------------------------------------------------------------------ phases

  function ReceivePass(n: nat, incoming: nat -> Incoming): seq<Step> {
    seq(n, j requires 0 <= j < n => Receive(j, incoming(j)))
  }

  function ConfigurePass(n: nat, ok: nat -> bool): seq<Step> {
    seq(n, j requires 0 <= j < n => Configure(j, ok(j)))
  }

  function AssignPass(n: nat, now: nat -> int): seq<Step> {
    seq(n, i requires 0 <= i < n => Assign(i, now(i)))
  }

  function SendPass(n: nat, ok: nat -> bool): seq<Step> {
    seq(n, i requires 0 <= i < n => Send(i, ok(i)))
  }

  function ExpirePass(n: nat, now: int): seq<Step> {
    seq(n, i requires 0 <= i < n => Expire(i, now))
  }

  /** What the environment decides during one round of the main loop. */
  datatype RoundInput = RoundInput(
    broadcast: Option<Step>, incoming: nat -> Incoming, configOk: nat -> bool,
    assignClock: nat -> int, sendOk: nat -> bool, expiryClock: int, staleClock: int)

  predicate ValidInput(input: RoundInput) {
    input.broadcast.Some? ==> input.broadcast.value.Discover?
  }

  function Discovery(input: RoundInput): seq<Step> {
    if input.broadcast.Some? then [input.broadcast.value] else []
  }

  /** The table sizes that bound the loops: employees after discovery, tasks. */
  function RoundSteps(employees: nat, tasks: nat, input: RoundInput): seq<Step> {
    Discovery(input)
    + ReceivePass(employees, input.incoming)
    + ConfigurePass(employees, input.configOk)
    + AssignPass(tasks, input.assignClock)
    + SendPass(tasks, input.sendOk)
    + ExpirePass(tasks, input.expiryClock)
    + [DropStale(input.staleClock)]
  }

  function StepsOf(s: State, input: RoundInput): seq<Step> {
    RoundSteps(|Run(s, Discovery(input)).employees|, |s.assignments|, input)
  }

  function Round(s: State, input: RoundInput): State {
    Run(s, StepsOf(s, input))
  }

  function Rounds(s: State, inputs: seq<RoundInput>): State
    decreases |inputs|
  {
    if inputs == [] then s else Rounds(Round(s, inputs[0]), inputs[1..])
  }

  lemma PhasesMakeRound(s0: State, s1: State, s2: State, s3: State, s4: State, s5: State, s6: State,
                        input: RoundInput)
    requires ValidInput(input)
    requires s1 == if input.broadcast.Some? then Apply(s0, input.broadcast.value) else s0
    requires |s1.assignments| == |s0.assignments|
    requires s2 == Run(s1, ReceivePass(|s1.employees|, input.incoming))
    requires s3 == Run(s2, ConfigurePass(|s1.employees|, input.configOk))
    requires s4 == Run(s3, AssignPass(|s0.assignments|, input.assignClock))
    requires s5 == Run(s4, SendPass(|s0.assignments|, input.sendOk))
    requires s6 == Run(s5, ExpirePass(|s0.assignments|, input.expiryClock))
    ensures Apply(s6, DropStale(input.staleClock)) == Round(s0, input)
  {
    var n, t := |s1.employees|, |s0.assignments|;
    var done := Discovery(input);
    if input.broadcast.Some? {
      assert Run(s0, [input.broadcast.value][..0]) == s0;
    }
    assert s1 == Run(s0, done);
    RunConcat(s0, done, ReceivePass(n, input.incoming));
    done := done + ReceivePass(n, input.incoming);
    RunConcat(s0, done, ConfigurePass(n, input.configOk));
    done := done + ConfigurePass(n, input.configOk);
    RunConcat(s0, done, AssignPass(t, input.assignClock));
    done := done + AssignPass(t, input.assignClock);
    RunConcat(s0, done, SendPass(t, input.sendOk));
    done := done + SendPass(t, input.sendOk);
    RunConcat(s0, done, ExpirePass(t, input.expiryClock));
    done := done + ExpirePass(t, input.expiryClock);
    RunSnoc(s0, done, DropStale(input.staleClock));
  }

  predicate KeepsClaims(step: Step) {
    !step.Assign? && !step.Send?
  }

  lemma BoundaryStep(s: State, step: Step)
    requires Boundary(s) && Clean(s, step) && KeepsClaims(step)
    ensures Boundary(Apply(s, step))
  {
    StepKeepsInv(s, step);
    match step
    case Discover(ip, id, now, up) => FairDiscover(s, ip, id, now, up);
    case Receive(j, incoming) => FairReceive(s, j, incoming);
    case Configure(j, ok) => FairConfigure(s, j, ok);
    case Expire(i, now) =>
    case DropStale(now) => FairSweep(s, 0, now);
  }

  /** Every phase but assigning and sending keeps the boundary condition. */
  lemma {:induction false} OtherPhases(s: State, steps: seq<Step>)
    requires Boundary(s) && AllClean(s, steps)
    requires forall k :: 0 <= k < |steps| ==> KeepsClaims(steps[k])
    ensures Boundary(Run(s, steps))
    decreases |steps|
  {
    hide Boundary;
    hide AllClean;
    hide Clean;
    if steps != [] {
      var n := |steps| - 1;
      assert steps == steps[..n] + [steps[n]];
      AllCleanLast(s, steps[..n], steps[n]);
      OtherPhases(s, steps[..n]);
      BoundaryStep(Run(s, steps[..n]), steps[n]);
    }
  }

  /** Every waiting task from `i` on names nobody. */
  ghost predicate UnclaimedFrom(s: State, i: nat) {
    forall k :: i <= k < |s.assignments| && Pending(s, k) ==> s.assignments[k].employeeIp == ""
  }

  /** A waiting task that names an employee names one that can be sent to. */
  ghost predicate Deliverable(s: State, i: nat) {
    Pending(s, i) && s.assignments[i].employeeIp != "" ==>
      exists j :: 0 <= j < |s.employees| && s.employees[j].ip == s.assignments[i].employeeIp
                  && Reachable(s.employees[j])
  }

  ghost predicate Assigned(s: State, n: nat, tasks: nat) {
    && Inv(s) && Fair(s) && |s.assignments| == tasks
    && UnclaimedFrom(s, n)
    && forall i :: 0 <= i < tasks ==> Deliverable(s, i)
  }

  lemma DeliverableStays(s: State, n: nat, now: int, i: nat)
    requires Deliverable(s, i)
    ensures Deliverable(ApplyAssign(s, n, now), i)
  {
    var s' := ApplyAssign(s, n, now);
    if s' != s {
      var f := FindFree(s.employees);
      if i == n {
        assert Reachable(s'.employees[f]);
      } else if Pending(s, i) && s.assignments[i].employeeIp != "" {
        var j :| 0 <= j < |s.employees| && s.employees[j].ip == s.assignments[i].employeeIp
                 && Reachable(s.employees[j]);
        assert s'.employees[j].ip == s.assignments[i].employeeIp && Reachable(s'.employees[j]);
      }
    }
  }

  lemma {:induction false} AssignPhase(s: State, n: nat, now: nat -> int)
    requires Boundary(s) && n <= |s.assignments|
    ensures Assigned(Run(s, AssignPass(n, now)), n, |s.assignments|)
    decreases n
  {
    if n == 0 {
      assert Run(s, AssignPass(0, now)) == s;
    } else {
      AssignPhase(s, n - 1, now);
      var m, t := Run(s, AssignPass(n - 1, now)), now(n - 1);
      assert AssignPass(n, now) == AssignPass(n - 1, now) + [Assign(n - 1, t)];
      RunSnoc(s, AssignPass(n - 1, now), Assign(n - 1, t));
      KeepsAssign(m, n - 1, t);
      FairAssign(m, n - 1, t);
      var m' := ApplyAssign(m, n - 1, t);
      forall i | 0 <= i < |s.assignments| ensures Deliverable(m', i) {
        DeliverableStays(m, n - 1, t, i);
      }
    }
  }

  ghost predicate SettledTo(s: State, n: nat) {
    forall i :: 0 <= i < n && Pending(s, i) ==> s.assignments[i].employeeIp == ""
  }

  ghost predicate SentTo(s: State, s': State, n: nat) {
    && Inv(s') && Fair(s') && s'.employees == s.employees
    && |s'.assignments| == |s.assignments|
    && (forall i :: n <= i < |s.assignments| ==> s'.assignments[i] == s.assignments[i])
    && SettledTo(s', n)
  }

  /** Sending a deliverable task with success leaves nothing to settle about it. */
  lemma SendSettles(m: State, n: nat)
    requires Distinct(m.employees) && Deliverable(m, n)
    ensures var m' := ApplySend(m, n, true);
      && m'.employees == m.employees && |m'.assignments| == |m.assignments|
      && (Pending(m', n) ==> m'.assignments[n].employeeIp == "")
      && (forall i :: 0 <= i < |m.assignments| && i != n ==> m'.assignments[i] == m.assignments[i])
  {
    if Pending(m, n) && m.assignments[n].employeeIp != "" {
      var ip := m.assignments[n].employeeIp;
      var j :| 0 <= j < |m.employees| && m.employees[j].ip == ip && Reachable(m.employees[j]);
      assert FindIp(m.employees, ip) == j;
    }
  }

  lemma SendStep(s: State, m: State, n: nat, ok: bool)
    requires n < |s.assignments| && Deliverable(s, n) && SentTo(s, m, n)
    requires Tried(s, n) ==> ok
    ensures SentTo(s, ApplySend(m, n, ok), n + 1)
  {
    assert Tried(m, n) ==> ok;
    assert ApplySend(m, n, ok) == ApplySend(m, n, true);
    KeepsSend(m, n, true);
    FairSend(m, n);
    assert Distinct(m.employees);
    hide Inv;
    hide Fair;
    SendSettles(m, n);
    hide ApplySend;
  }

  /** A send phase in which every send that is tried gets through. */
  lemma {:induction false} SendPhase(s: State, n: nat, ok: nat -> bool)
    requires Inv(s) && Fair(s) && n <= |s.assignments|
    requires forall i :: 0 <= i < |s.assignments| ==> Deliverable(s, i)
    requires forall i :: 0 <= i < n && Tried(s, i) ==> ok(i)
    ensures SentTo(s, Run(s, SendPass(n, ok)), n)
    decreases n
  {
    hide Inv;
    hide Fair;
    hide SentTo;
    hide Deliverable;
    hide Tried;
    hide ApplySend;
    hide Run;
    if n == 0 {
      NothingSent(s, ok);
    } else {
      var front, step := SendPass(n - 1, ok), Send(n - 1, ok(n - 1));
      assert SendPass(n, ok) == front + [step];
      hide SendPass;
      SendPhase(s, n - 1, ok);
      RunSnoc(s, front, step);
      SendStep(s, Run(s, front), n - 1, ok(n - 1));
    }
  }

  lemma NothingSent(s: State, ok: nat -> bool)
    requires Inv(s) && Fair(s)
    ensures SentTo(s, Run(s, SendPass(0, ok)), 0)
  {
    assert Run(s, SendPass(0, ok)) == s;
  }

  lemma CleanSends(s: State, n: nat, ok: nat -> bool)
    requires AllClean(s, SendPass(n, ok))
    ensures forall i :: 0 <= i < n ==> ok(i)
  {
    forall i | 0 <= i < n ensures ok(i) {
      assert Clean(Run(s, SendPass(n, ok)[..i]), SendPass(n, ok)[i]);
    }
  }

  // ---------------------------------------------------------------- theorems

  lemma RoundSplits(s: State, n: nat, input: RoundInput)
    ensures var t := |s.assignments|;
      var early := Discovery(input) + ReceivePass(n, input.incoming) + ConfigurePass(n, input.configOk);
      var assign := AssignPass(t, input.assignClock);
      var send := SendPass(t, input.sendOk);
      var late := ExpirePass(t, input.expiryClock) + [DropStale(input.staleClock)];
      && RoundSteps(n, t, input) == early + (assign + (send + late))
  {
  }

  lemma RoundKeepsBoundary(s: State, input: RoundInput)
    requires Boundary(s) && ValidInput(input)
    requires AllClean(s, StepsOf(s, input))
    ensures Boundary(Round(s, input))
  {
    hide Inv;
    hide Fair;
    hide Run;
    hide AllClean;
    var n, t := |Run(s, Discovery(input)).employees|, |s.assignments|;
    var early := Discovery(input) + ReceivePass(n, input.incoming) + ConfigurePass(n, input.configOk);
    var assign := AssignPass(t, input.assignClock);
    var send := SendPass(t, input.sendOk);
    var late := ExpirePass(t, input.expiryClock) + [DropStale(input.staleClock)];
    RoundSplits(s, n, input);
    AllCleanConcat(s, early, assign + (send + late));
    OtherPhases(s, early);
    RunKeepsTables(s, early);
    var s1 := Run(s, early);
    AllCleanConcat(s1, assign, send + late);
    AssignPhase(s1, t, input.assignClock);
    var s2 := Run(s1, assign);
    AllCleanConcat(s2, send, late);
    CleanSends(s2, t, input.sendOk);
    SendPhase(s2, t, input.sendOk);
    var s3 := Run(s2, send);
    assert Settled(s3.assignments);
    OtherPhases(s3, late);
    RunConcat(s, early, assign + (send + late));
    RunConcat(s1, assign, send + late);
    RunConcat(s2, send, late);
  }

  predicate CleanRound(s: State, input: RoundInput) {
    ValidInput(input) && AllClean(s, StepsOf(s, input))
  }

  predicate CleanRounds(s: State, inputs: seq<RoundInput>) {
    forall k :: 0 <= k < |inputs| ==> CleanRound(Rounds(s, inputs[..k]), inputs[k])
  }

  lemma {:induction false} RoundsSnoc(s: State, inputs: seq<RoundInput>, input: RoundInput)
    ensures Rounds(s, inputs + [input]) == Round(Rounds(s, inputs), input)
    decreases |inputs|
  {
    hide Round;
    if inputs == [] {
      assert inputs + [input] == [input];
      assert [input][1..] == [];
    } else {
      RoundsSnoc(Round(s, inputs[0]), inputs[1..], input);
      assert (inputs + [input])[1..] == inputs[1..] + [input];
    }
  }

  lemma RoundsStep(s: State, inputs: seq<RoundInput>, k: nat)
    requires k < |inputs|
    ensures Rounds(s, inputs[..k + 1]) == Round(Rounds(s, inputs[..k]), inputs[k])
  {
    hide Round;
    RoundsSnoc(s, inputs[..k], inputs[k]);
    assert inputs[..k + 1] == inputs[..k] + [inputs[k]];
  }

  lemma {:induction false} RoundsKeepBoundary(s: State, inputs: seq<RoundInput>, k: nat)
    requires Boundary(s) && CleanRounds(s, inputs) && k <= |inputs|
    ensures Boundary(Rounds(s, inputs[..k]))
    decreases k
  {
    hide Boundary;
    hide Round;
    if k == 0 {
      assert inputs[..0] == [];
    } else {
      RoundsKeepBoundary(s, inputs, k - 1);
      RoundsStep(s, inputs, k - 1);
      assert CleanRound(Rounds(s, inputs[..k - 1]), inputs[k - 1]);
      RoundKeepsBoundary(Rounds(s, inputs[..k - 1]), inputs[k - 1]);
    }
  }

  lemma InitBoundary(tasks: seq<string>)
    ensures Boundary(Init(tasks))
  {
    InitInv(tasks);
  }

  /** After any number of fault-free rounds each counter is exact, so no employee
      ever holds more than three unreturned tasks. */
  lemma LoadConserved(tasks: seq<string>, inputs: seq<RoundInput>)
    requires CleanRounds(Init(tasks), inputs)
    ensures LoadsExact(Rounds(Init(tasks), inputs))
  {
    InitBoundary(tasks);
    RoundsKeepBoundary(Init(tasks), inputs, |inputs|);
    assert inputs[..|inputs|] == inputs;
    ExactWhenSettled(Rounds(Init(tasks), inputs));
  }
}
