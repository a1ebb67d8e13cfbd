/** Exactly when `active_tasks` is the number of sent, uncompleted tasks. */
module EmployerCounters {
  import opened Options
  import opened EmployerState
  import opened EmployerInvariants
  import opened EmployerLoad

  lemma {:induction false} OutstandingUpdate(asgs: seq<Assignment>, i: nat, a: Assignment, ip: string)
    requires i < |asgs|
    ensures Outstanding(asgs[i := a], ip) == Outstanding(asgs, ip) - InFlight(asgs[i], ip) + InFlight(a, ip)
    decreases |asgs|
  {
    var n := |asgs| - 1;
    if i == n {
      assert asgs[i := a][..n] == asgs[..n];
    } else {
      OutstandingUpdate(asgs[..n], i, a, ip);
      assert asgs[i := a][..n] == asgs[..n][i := a];
    }
  }

  /** Nobody in flight is missed: a task sent to `ip` makes its count positive. */
  lemma SentCounts(asgs: seq<Assignment>, i: nat, ip: string)
    requires i < |asgs| && InFlight(asgs[i], ip) == 1
    ensures Outstanding(asgs, ip) > 0
  {
    OutstandingUpdate(asgs, i, asgs[i].(completed := true), ip);
  }

  // ---------------------------------------------------------------- one step

  /** The sender of a result that finishes task `i`, or its assignee if that is
      still in the table, is the one to be relieved. */
  predicate RightlyCredited(s: State, j: nat, i: nat)
    requires j < |s.employees| && i < |s.assignments|
  {
    var a := s.assignments[i];
    if a.sent && FindIp(s.employees, a.employeeIp) < |s.employees| then a.employeeIp == s.employees[j].ip
    else s.employees[j].active == 0
  }

  /** What can be seen before the step: it leaves exact counters exact. */
  predicate Keeps(s: State, step: Step) {
    match step
    case Discover(ip, _, _, _) =>
      || FindIp(s.employees, ip) < |s.employees|
      || |s.employees| >= MAX_EMPLOYEES
      || Outstanding(s.assignments, ip) == 0
    case Receive(j, Result(task, _)) =>
      var i := FindOpen(s.assignments, task);
      j < |s.employees| && s.employees[j].conn.Some? && i < |s.assignments| ==> RightlyCredited(s, j, i)
    case Assign(i, _) => !(Pending(s, i) && FindFree(s.employees) < |s.employees|)
    case Send(i, ok) => !(ok && Tried(s, i))
    case _ => true
  }

  /** The counters alone, without the bound that every state has. */
  ghost predicate Counted(es: seq<Employee>, asgs: seq<Assignment>) {
    forall j :: 0 <= j < |es| ==> es[j].active == Outstanding(asgs, es[j].ip)
  }

  lemma CountedIsExact(s: State)
    requires Inv(s)
    ensures LoadsExact(s) <==> Counted(s.employees, s.assignments)
  {
    assert forall j :: 0 <= j < |s.employees| ==> Linked(s.employees[j], s.nextConn, s.log);
  }

  lemma CountedDiscover(s: State, ip: string, id: string, now: int, up: bool)
    requires Inv(s) && Counted(s.employees, s.assignments)
    ensures var s' := ApplyDiscover(s, ip, id, now, up);
      Counted(s'.employees, s'.assignments) <==> Keeps(s, Discover(ip, id, now, up))
  {
    var s' := ApplyDiscover(s, ip, id, now, up);
    var n := |s.employees|;
    assert |s'.employees| > n ==> s'.employees[n].active == 0 && s'.employees[n].ip == ip;
  }

  lemma CountedResult(s: State, j: nat, task: string, now: int)
    requires Inv(s) && Counted(s.employees, s.assignments)
    ensures var s' := ApplyReceive(s, j, Result(task, now));
      Counted(s'.employees, s'.assignments) <==> Keeps(s, Receive(j, Result(task, now)))
  {
    var s' := ApplyReceive(s, j, Result(task, now));
    var i := FindOpen(s.assignments, task);
    if j < |s.employees| && s.employees[j].conn.Some? && i < |s.assignments| {
      var a := s.assignments[i];
      forall k | 0 <= k < |s.employees|
        ensures Outstanding(s'.assignments, s.employees[k].ip)
                == Outstanding(s.assignments, s.employees[k].ip) - InFlight(a, s.employees[k].ip)
      {
        OutstandingUpdate(s.assignments, i, s'.assignments[i], s.employees[k].ip);
      }
      var f := FindIp(s.employees, a.employeeIp);
      if f < |s.employees| && f != j {
        assert s'.employees[f].active == s.employees[f].active;
      }
      assert s'.employees[j].active == Outstanding(s'.assignments, s'.employees[j].ip)
             <==> InFlight(a, s.employees[j].ip) == 1 || s.employees[j].active == 0;
    }
  }

  lemma CountedAssign(s: State, i: nat, now: int)
    requires Inv(s) && Counted(s.employees, s.assignments)
    ensures var s' := ApplyAssign(s, i, now);
      Counted(s'.employees, s'.assignments) <==> Keeps(s, Assign(i, now))
  {
    var s' := ApplyAssign(s, i, now);
    var j := FindFree(s.employees);
    if Pending(s, i) && j < |s.employees| {
      OutstandingUpdate(s.assignments, i, s'.assignments[i], s.employees[j].ip);
      assert s'.employees[j].active != Outstanding(s'.assignments, s'.employees[j].ip);
    }
  }

  lemma CountedSend(s: State, i: nat, ok: bool)
    requires Inv(s) && Counted(s.employees, s.assignments)
    ensures var s' := ApplySend(s, i, ok);
      Counted(s'.employees, s'.assignments) <==> Keeps(s, Send(i, ok))
  {
    var s' := ApplySend(s, i, ok);
    if Tried(s, i) {
      var j := FindIp(s.employees, s.assignments[i].employeeIp);
      forall k | 0 <= k < |s.employees|
        ensures Outstanding(s'.assignments, s.employees[k].ip)
                == Outstanding(s.assignments, s.employees[k].ip) + InFlight(s'.assignments[i], s.employees[k].ip)
      {
        OutstandingUpdate(s.assignments, i, s'.assignments[i], s.employees[k].ip);
      }
      assert InFlight(s'.assignments[i], s.employees[j].ip) == if ok then 1 else 0;
      assert s'.employees[j].active == s.employees[j].active && s'.employees[j].ip == s.employees[j].ip;
    }
  }

  lemma CountedExpire(s: State, i: nat, now: int)
    requires Inv(s) && Counted(s.employees, s.assignments)
    ensures var s' := ApplyExpire(s, i, now);
      Counted(s'.employees, s'.assignments)
  {
    var s' := ApplyExpire(s, i, now);
    if Overdue(s, i, now) {
      var a := s.assignments[i];
      var j := FindIp(s.employees, a.employeeIp);
      if j < |s.employees| { SentCounts(s.assignments, i, a.employeeIp); }
      forall k | 0 <= k < |s.employees|
        ensures s'.employees[k].active == Outstanding(s'.assignments, s'.employees[k].ip)
      {
        OutstandingUpdate(s.assignments, i, s'.assignments[i], s.employees[k].ip);
        assert k == j <==> s.employees[k].ip == a.employeeIp;
      }
    }
  }

  lemma CountedSweep(s: State, now: int)
    requires Inv(s) && Counted(s.employees, s.assignments)
    ensures Counted(Sweep(s.employees, 0, now), s.assignments)
  {
    var es, es' := s.employees, Sweep(s.employees, 0, now);
    forall k | 0 <= k < |es'| ensures es'[k].active == Outstanding(s.assignments, es'[k].ip) {
      SweepKeepsRecent(es, 0, now, es'[k]);
      assert es'[k] in multiset(es');
      assert es'[k] in es;
    }
  }

  /** If every employee's counter is the number of its sent, uncompleted tasks, a
      step keeps it so if and only if one of these does not happen: an assignment,
      a send that gets through, a result credited to the wrong employee, or the
      return of an employee that was dropped while it had tasks. */
  lemma LoadStepExact(s: State, step: Step)
    requires Inv(s) && LoadsExact(s)
    ensures LoadsExact(Apply(s, step)) <==> Keeps(s, step)
  {
    StepKeepsInv(s, step);
    CountedIsExact(s);
    CountedIsExact(Apply(s, step));
    match step
    case Discover(ip, id, now, up) => CountedDiscover(s, ip, id, now, up);
    case Receive(j, Result(task, now)) => CountedResult(s, j, task, now);
    case Receive(_, _) =>
    case Configure(_, _) =>
    case Assign(i, now) => CountedAssign(s, i, now);
    case Send(i, ok) => CountedSend(s, i, ok);
    case Expire(i, now) => CountedExpire(s, i, now);
    case DropStale(now) => CountedSweep(s, now);
  }

  // --------------------------------------------------- assigning and sending

  /** An assignment raises a counter and the send that follows makes up for it. */
  lemma {:induction false} AnySends(s: State, n: nat, ok: nat -> bool, i: nat)
    requires Inv(s) && Fair(s) && i < |s.assignments| && n <= |s.assignments|
    ensures var s' := Run(s, SendPass(n, ok));
      && Inv(s') && Fair(s') && |s'.assignments| == |s.assignments|
      && (n <= i ==> s'.assignments[i] == s.assignments[i])
    decreases n
  {
    if n == 0 {
      assert Run(s, SendPass(0, ok)) == s;
    } else {
      hide Inv;
      hide Fair;
      hide ApplySend;
      hide Run;
      hide SendPass;
      AnySends(s, n - 1, ok, i);
      SendSnoc(s, n - 1, ok);
      SendKeeps(Run(s, SendPass(n - 1, ok)), n - 1, ok(n - 1));
    }
  }

  lemma SendSnoc(s: State, n: nat, ok: nat -> bool)
    ensures Run(s, SendPass(n + 1, ok)) == ApplySend(Run(s, SendPass(n, ok)), n, ok(n))
  {
    assert SendPass(n + 1, ok) == SendPass(n, ok) + [Send(n, ok(n))];
    RunSnoc(s, SendPass(n, ok), Send(n, ok(n)));
  }

  lemma SendKeeps(m: State, n: nat, ok: bool)
    requires Inv(m) && Fair(m)
    ensures var m' := ApplySend(m, n, ok);
      && Inv(m') && Fair(m') && |m'.assignments| == |m.assignments|
      && forall k :: 0 <= k < |m.assignments| && k != n ==> m'.assignments[k] == m.assignments[k]
  {
    KeepsSend(m, n, ok);
    if ok { FairSend(m, n); } else { FairSendFails(m, n); }
  }

  /** Once a send has failed, the task stays behind with its employee's name. */
  lemma {:induction false} LeftBehind(s: State, i: nat, n: nat, ok: nat -> bool)
    requires Inv(s) && Fair(s) && i < n <= |s.assignments|
    requires Tried(Run(s, SendPass(i, ok)), i) && !ok(i)
    ensures var s' := Run(s, SendPass(n, ok));
      && Inv(s') && Fair(s') && |s'.assignments| == |s.assignments|
      && Pending(s', i) && s'.assignments[i].employeeIp != ""
    decreases n
  {
    hide Inv;
    hide Fair;
    hide Tried;
    hide ApplySend;
    hide Run;
    hide SendPass;
    var m := Run(s, SendPass(n - 1, ok));
    AnySends(s, n - 1, ok, i);
    SendSnoc(s, n - 1, ok);
    SendKeeps(m, n - 1, ok(n - 1));
    if i < n - 1 {
      LeftBehind(s, i, n - 1, ok);
    } else {
      FailureLeaves(m, i);
    }
  }

  lemma FailureLeaves(m: State, i: nat)
    requires Fair(m) && Tried(m, i)
    ensures var m' := ApplySend(m, i, false);
      |m'.assignments| == |m.assignments| && Pending(m', i) && m'.assignments[i].employeeIp != ""
  {
  }

  /** The send phase gives every waiting task that can be sent a try. */
  predicate AllTriedSucceed(s: State, n: nat, ok: nat -> bool) {
    forall i :: 0 <= i < n && Tried(s, i) ==> ok(i)
  }

  /** Assigning and sending, from the state between two rounds: the counters are
      exact again if and only if every send that is tried gets through. */
  lemma AssignAndSendExact(s: State, now: nat -> int, ok: nat -> bool)
    requires Boundary(s)
    ensures var n := |s.assignments|;
      var s1 := Run(s, AssignPass(n, now));
      LoadsExact(Run(s1, SendPass(n, ok))) <==> AllTriedSucceed(s1, n, ok)
  {
    var n := |s.assignments|;
    var s1 := Run(s, AssignPass(n, now));
    AssignPhase(s, n, now);
    var s2 := Run(s1, SendPass(n, ok));
    if AllTriedSucceed(s1, n, ok) {
      SendPhase(s1, n, ok);
      assert Settled(s2.assignments);
    } else {
      var i := FirstFailure(s1, n, ok);
      SendPhase(s1, i, ok);
      assert Tried(Run(s1, SendPass(i, ok)), i);
      LeftBehind(s1, i, n, ok);
      assert !Settled(s2.assignments);
    }
    ExactWhenSettled(s2);
  }

  lemma {:induction false} FirstFailure(s: State, n: nat, ok: nat -> bool) returns (i: nat)
    requires !AllTriedSucceed(s, n, ok)
    ensures i < n && Tried(s, i) && !ok(i) && AllTriedSucceed(s, i, ok)
    decreases n
  {
    if AllTriedSucceed(s, n - 1, ok) {
      i := n - 1;
    } else {
      i := FirstFailure(s, n - 1, ok);
    }
  }
}
