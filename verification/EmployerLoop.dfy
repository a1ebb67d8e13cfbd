/** The employer itself: the tables as fields, the phases as loops over them,
    and the main loop.  Every method is proved to perform exactly the steps of
    its phase, so all theorems about runs apply to it. */
module EmployerLoop {
  import opened Options
  import opened EmployerState
  import opened EmployerInvariants
  import opened EmployerLoad

  const MAX_TASK_ASSIGNMENTS: nat := 1000

  /** Sends that went through, over all tasks. */
  function Deliveries(log: seq<Event>): nat {
    if log == [] then 0
    else Deliveries(log[..|log| - 1]) + (var e := log[|log| - 1]; if e.Attempt? && e.ok then 1 else 0)
  }

  function CompletedIn(asgs: seq<Assignment>): nat {
    if asgs == [] then 0
    else CompletedIn(asgs[..|asgs| - 1]) + if asgs[|asgs| - 1].completed then 1 else 0
  }

  predicate AllCompleted(asgs: seq<Assignment>) {
    forall i :: 0 <= i < |asgs| ==> asgs[i].completed
  }

  /** There were tasks, and all have come back. */
  predicate AllBack(s: State) {
    s.assignments != [] && AllCompleted(s.assignments)
  }

  /** After none of the rounds before the `n`-th had all tasks come back. */
  ghost predicate OutBefore(s: State, inputs: seq<RoundInput>, n: nat)
    requires n <= |inputs|
  {
    forall r :: 0 < r < n ==> !AllBack(Rounds(s, inputs[..r]))
  }

  lemma OutOneMore(s: State, inputs: seq<RoundInput>, n: nat)
    requires n < |inputs| && OutBefore(s, inputs, n)
    requires n > 0 ==> !AllBack(Rounds(s, inputs[..n]))
    ensures OutBefore(s, inputs, n + 1)
  {
  }

  lemma {:induction false} CountReachesTotal(asgs: seq<Assignment>)
    ensures CompletedIn(asgs) <= |asgs|
    ensures CompletedIn(asgs) == |asgs| <==> AllCompleted(asgs)
    decreases |asgs|
  {
    if asgs != [] {
      CountReachesTotal(asgs[..|asgs| - 1]);
      assert asgs == asgs[..|asgs| - 1] + [asgs[|asgs| - 1]];
    }
  }

  class Employer {
    var employees: seq<Employee>
    var assignments: seq<Assignment>
    var nextConn: nat
    ghost var log: seq<Event>

    ghost function Snapshot(): State
      reads this
    {
      State(employees, assignments, nextConn, log)
    }

    /** `populate_chunked_tasks`: queues the files found, as far as the table goes. */
    constructor (tasks: seq<string>)
      ensures Snapshot() == Init(tasks[..if |tasks| < MAX_TASK_ASSIGNMENTS then |tasks| else MAX_TASK_ASSIGNMENTS])
    {
      employees, assignments, nextConn, log := [], [], 0, [];
      new;
      for i := 0 to |tasks|
        invariant employees == [] && nextConn == 0 && log == []
        invariant |assignments| == if i < MAX_TASK_ASSIGNMENTS then i else MAX_TASK_ASSIGNMENTS
        invariant forall k :: 0 <= k < |assignments| ==> assignments[k] == Fresh(tasks[k])
      {
        var added := AddTaskAssignment(Fresh(tasks[i]));
      }
    }

    method AddTaskAssignment(a: Assignment) returns (added: bool)
      modifies this`assignments
      ensures added <==> |old(assignments)| < MAX_TASK_ASSIGNMENTS
      ensures assignments == if added then old(assignments) + [a] else old(assignments)
    {
      if |assignments| >= MAX_TASK_ASSIGNMENTS {
        return false;
      }
      assignments := assignments + [a];
      return true;
    }

    method LookUp(ip: string) returns (j: nat)
      ensures j == FindIp(employees, ip)
    {
      j := 0;
      while j < |employees| && employees[j].ip != ip
        invariant j <= |employees|
        invariant forall k :: 0 <= k < j ==> employees[k].ip != ip
      {
        j := j + 1;
      }
    }

    method AddOrUpdateEmployee(ip: string, id: string, now: int, up: bool)
      modifies this
      ensures Snapshot() == Apply(old(Snapshot()), Discover(ip, id, now, up))
      ensures assignments == old(assignments)
    {
      var j := LookUp(ip);
      if j < |employees| {
        employees := employees[j := employees[j].(lastSeen := now)];
        if employees[j].conn.None? && up {
          employees := employees[j := employees[j].(conn := Some(nextConn), stage := New)];
          log := log + [Established(nextConn)];
          nextConn := nextConn + 1;
        }
      } else if |employees| < MAX_EMPLOYEES {
        var conn := None;
        if up {
          conn := Some(nextConn);
          log := log + [Established(nextConn)];
          nextConn := nextConn + 1;
        }
        employees := employees + [Employee(id, ip, now, 0, 100, conn, New)];
      }
    }

    /** One message from one employee, if its socket is readable. */
    method ReceiveFrom(j: nat, incoming: Incoming)
      requires j < |employees|
      modifies this
      ensures Snapshot() == Apply(old(Snapshot()), Receive(j, incoming))
      ensures |employees| == old(|employees|) && |assignments| == old(|assignments|)
    {
      if employees[j].conn.Some? {
        match incoming {
          case Quiet =>
          case Ignored =>
          case Lost =>
            employees := employees[j := employees[j].(conn := None)];
          case Result(task, now) =>
            ReceiveResult(j, task, now);
        }
      }
    }

    /** Phase 2: one message from every readable employee. */
    method ReceiveResults(incoming: nat -> Incoming)
      modifies this
      ensures Snapshot() == Run(old(Snapshot()), ReceivePass(old(|employees|), incoming))
      ensures |employees| == old(|employees|) && |assignments| == old(|assignments|)
    {
      hide Apply;
      ghost var s0 := Snapshot();
      for j := 0 to |employees|
        invariant |employees| == old(|employees|) && |assignments| == old(|assignments|)
        invariant Snapshot() == Run(s0, ReceivePass(j, incoming))
      {
        ghost var before := ReceivePass(j, incoming);
        ReceiveFrom(j, incoming(j));
        assert ReceivePass(j + 1, incoming) == before + [Receive(j, incoming(j))];
        RunSnoc(s0, before, Receive(j, incoming(j)));
      }
    }

    method ReceiveResult(j: nat, task: string, now: int)
      requires j < |employees| && employees[j].conn.Some?
      modifies this
      ensures Snapshot() == Apply(old(Snapshot()), Receive(j, Result(task, now)))
      ensures |employees| == old(|employees|) && |assignments| == old(|assignments|)
    {
      var i := 0;
      while i < |assignments|
        invariant i <= |assignments|
        invariant forall k :: 0 <= k < i ==> assignments[k].completed || assignments[k].taskId != task
      {
        if !assignments[i].completed && assignments[i].taskId == task {
          assert i == FindOpen(assignments, task);
          assignments := assignments[i := assignments[i].(completed := true, completedTime := now)];
          if employees[j].active > 0 {
            employees := employees[j := employees[j].(active := employees[j].active - 1)];
          }
          log := log + [Finished(i)];
          return;
        }
        i := i + 1;
      }
    }

    /** Configures one employee if it is connected and still new; a failure closes. */
    method SendInitialConfig(j: nat, ok: bool)
      requires j < |employees|
      modifies this
      ensures Snapshot() == Apply(old(Snapshot()), Configure(j, ok))
      ensures |employees| == old(|employees|) && |assignments| == old(|assignments|)
    {
      if employees[j].conn.Some? && employees[j].stage == New {
        if ok {
          log := log + [ConfigDone(employees[j].conn.value)];
          employees := employees[j := employees[j].(stage := Configured)];
        } else {
          employees := employees[j := employees[j].(conn := None)];
        }
      }
    }

    /** Phase 3: configure the new employees. */
    method SendInitialConfigs(ok: nat -> bool)
      modifies this
      ensures Snapshot() == Run(old(Snapshot()), ConfigurePass(old(|employees|), ok))
      ensures |employees| == old(|employees|) && |assignments| == old(|assignments|)
    {
      hide Apply;
      ghost var s0 := Snapshot();
      for j := 0 to |employees|
        invariant |employees| == old(|employees|) && |assignments| == old(|assignments|)
        invariant Snapshot() == Run(s0, ConfigurePass(j, ok))
      {
        ghost var before := ConfigurePass(j, ok);
        SendInitialConfig(j, ok(j));
        assert ConfigurePass(j + 1, ok) == before + [Configure(j, ok(j))];
        RunSnoc(s0, before, Configure(j, ok(j)));
      }
    }

    /** Gives one waiting task to the first employee with room. */
    method AssignTask(i: nat, now: int)
      requires i < |assignments|
      modifies this
      ensures Snapshot() == Apply(old(Snapshot()), Assign(i, now))
      ensures |employees| == old(|employees|) && |assignments| == old(|assignments|)
    {
      if !assignments[i].sent && !assignments[i].completed {
        var j := 0;
        while j < |employees| && !CanTake(employees[j])
          invariant j <= |employees|
          invariant forall k :: 0 <= k < j ==> !CanTake(employees[k])
        {
          j := j + 1;
        }
        if j < |employees| {
          var e := employees[j];
          assignments := assignments[i := assignments[i].(
            employeeId := e.id, employeeIp := e.ip, assignedTime := now)];
          employees := employees[j := e.(active := e.active + 1)];
        }
      }
    }

    /** Phase 4: assign the waiting tasks. */
    method AssignTasks(now: nat -> int)
      modifies this
      ensures Snapshot() == Run(old(Snapshot()), AssignPass(old(|assignments|), now))
      ensures |employees| == old(|employees|) && |assignments| == old(|assignments|)
    {
      hide Apply;
      ghost var s0 := Snapshot();
      for i := 0 to |assignments|
        invariant |employees| == old(|employees|) && |assignments| == old(|assignments|)
        invariant Snapshot() == Run(s0, AssignPass(i, now))
      {
        ghost var before := AssignPass(i, now);
        AssignTask(i, now(i));
        assert AssignPass(i + 1, now) == before + [Assign(i, now(i))];
        RunSnoc(s0, before, Assign(i, now(i)));
      }
    }

    /** Sends one assigned task over its employee's connection; a failure closes it. */
    method SendTask(i: nat, ok: bool) returns (sent: bool)
      requires i < |assignments|
      modifies this
      ensures Snapshot() == Apply(old(Snapshot()), Send(i, ok))
      ensures |employees| == old(|employees|) && |assignments| == old(|assignments|)
      ensures Deliveries(log) == Deliveries(old(log)) + if sent then 1 else 0
    {
      sent := false;
      if !assignments[i].sent && !assignments[i].completed {
        var j := LookUp(assignments[i].employeeIp);
        if j < |employees| && Reachable(employees[j]) {
          ghost var e := Attempt(i, employees[j].conn.value, ok);
          if ok {
            assignments := assignments[i := assignments[i].(sent := true)];
            sent := true;
          } else {
            employees := employees[j := employees[j].(conn := None)];
            assignments := assignments[i := assignments[i].(retries := assignments[i].retries + 1)];
          }
          assert (log + [e])[..|log|] == log;
          log := log + [e];
        }
      }
    }

    /** Phase 5a: send the pending tasks. */
    method SendPendingTasks(ok: nat -> bool) returns (count: nat)
      modifies this
      ensures Snapshot() == Run(old(Snapshot()), SendPass(old(|assignments|), ok))
      ensures |employees| == old(|employees|) && |assignments| == old(|assignments|)
      ensures Deliveries(log) == Deliveries(old(log)) + count
    {
      hide Apply;
      hide Deliveries;
      ghost var s0 := Snapshot();
      count := 0;
      for i := 0 to |assignments|
        invariant |employees| == old(|employees|) && |assignments| == old(|assignments|)
        invariant Snapshot() == Run(s0, SendPass(i, ok))
        invariant Deliveries(log) == Deliveries(old(log)) + count
      {
        ghost var before := SendPass(i, ok);
        var sent := SendTask(i, ok(i));
        if sent {
          count := count + 1;
        }
        assert SendPass(i + 1, ok) == before + [Send(i, ok(i))];
        RunSnoc(s0, before, Send(i, ok(i)));
      }
    }

    /** Takes one task back if it is overdue, at its employee's expense. */
    method ExpireTask(i: nat, now: int) returns (expired: bool)
      requires i < |assignments|
      modifies this
      ensures Snapshot() == Apply(old(Snapshot()), Expire(i, now))
      ensures |employees| == old(|employees|) && |assignments| == old(|assignments|)
      ensures |log| == |old(log)| + if expired then 1 else 0
    {
      expired := false;
      if assignments[i].sent && !assignments[i].completed
         && now - assignments[i].assignedTime > TASK_TIMEOUT_SECONDS {
        var j := LookUp(assignments[i].employeeIp);
        assignments := assignments[i := assignments[i].(sent := false, retries := assignments[i].retries + 1)];
        if j < |employees| {
          employees := employees[j := employees[j].(reliability := employees[j].reliability - 10)];
          if employees[j].active > 0 {
            employees := employees[j := employees[j].(active := employees[j].active - 1)];
          }
        }
        log := log + [TimedOut(i)];
        expired := true;
      }
    }

    /** Phase 5b: take overdue tasks back. */
    method HandleTaskTimeouts(now: int) returns (count: nat)
      modifies this
      ensures Snapshot() == Run(old(Snapshot()), ExpirePass(old(|assignments|), now))
      ensures |employees| == old(|employees|) && |assignments| == old(|assignments|)
      ensures |log| == |old(log)| + count
    {
      hide Apply;
      ghost var s0 := Snapshot();
      count := 0;
      for i := 0 to |assignments|
        invariant |employees| == old(|employees|) && |assignments| == old(|assignments|)
        invariant Snapshot() == Run(s0, ExpirePass(i, now))
        invariant |log| == |old(log)| + count
      {
        ghost var before := ExpirePass(i, now);
        var expired := ExpireTask(i, now);
        if expired {
          count := count + 1;
        }
        assert ExpirePass(i + 1, now) == before + [Expire(i, now)];
        RunSnoc(s0, before, Expire(i, now));
      }
    }

    /** Phase 6: drop employees not heard from, filling each gap with the last one. */
    method RemoveStaleEmployees(now: int)
      modifies this`employees
      ensures Snapshot() == Apply(old(Snapshot()), DropStale(now))
    {
      var i := 0;
      while i < |employees|
        invariant i <= |employees|
        invariant Sweep(employees, i, now) == Sweep(old(employees), 0, now)
        decreases |employees| - i
      {
        if Stale(employees[i], now) {
          var last := |employees| - 1;
          ghost var es := employees;
          if i < last {
            employees := employees[i := employees[last]];
          }
          employees := employees[..last];
          assert employees == RemoveAt(es, i);
        } else {
          i := i + 1;
        }
      }
    }

    method CountCompletedTasks() returns (count: nat)
      ensures count == CompletedIn(assignments)
    {
      count := 0;
      for i := 0 to |assignments|
        invariant count == CompletedIn(assignments[..i])
      {
        assert assignments[..i + 1][..i] == assignments[..i];
        if assignments[i].completed {
          count := count + 1;
        }
      }
      assert assignments[..|assignments|] == assignments;
    }

    /** One pass through the body of the main loop. */
    method RunRound(input: RoundInput) returns (finished: bool)
      requires ValidInput(input)
      modifies this
      ensures Snapshot() == Round(old(Snapshot()), input)
      ensures finished <==> AllBack(Snapshot())
    {
      hide Run;
      hide Apply;
      hide Round;
      ghost var s0 := Snapshot();
      if input.broadcast.Some? {
        var b := input.broadcast.value;
        AddOrUpdateEmployee(b.ip, b.id, b.now, b.up);
      }
      ghost var s1 := Snapshot();
      ReceiveResults(input.incoming);
      ghost var s2 := Snapshot();
      SendInitialConfigs(input.configOk);
      ghost var s3 := Snapshot();
      AssignTasks(input.assignClock);
      ghost var s4 := Snapshot();
      var sent := SendPendingTasks(input.sendOk);
      ghost var s5 := Snapshot();
      var expired := HandleTaskTimeouts(input.expiryClock);
      ghost var s6 := Snapshot();
      RemoveStaleEmployees(input.staleClock);
      PhasesMakeRound(s0, s1, s2, s3, s4, s5, s6, input);
      var count := CountCompletedTasks();
      CountReachesTotal(assignments);
      finished := |assignments| > 0 && count >= |assignments|;
    }

    /** `employer_main_loop`: runs until the first round after which every task has
        come back, or for as long as the environment lets it. */
    method MainLoop(inputs: seq<RoundInput>) returns (rounds: nat)
      requires forall k :: 0 <= k < |inputs| ==> ValidInput(inputs[k])
      modifies this
      ensures rounds <= |inputs|
      ensures Snapshot() == Rounds(old(Snapshot()), inputs[..rounds])
      ensures rounds < |inputs| ==> AllBack(Snapshot())
      ensures OutBefore(old(Snapshot()), inputs, rounds)
    {
      rounds := 0;
      var active := true;
      ghost var start := Snapshot();
      assert inputs[..0] == [];
      assert Snapshot() == Rounds(start, inputs[..0]);
      assert OutBefore(start, inputs, 0);
      hide Rounds;
      hide Round;
      hide AllBack;
      hide OutBefore;
      while active && rounds < |inputs|
        invariant rounds <= |inputs|
        invariant Snapshot() == Rounds(start, inputs[..rounds])
        invariant if active then rounds > 0 ==> !AllBack(Snapshot()) else AllBack(Snapshot())
        invariant OutBefore(start, inputs, rounds)
        decreases |inputs| - rounds
      {
        OutOneMore(start, inputs, rounds);
        var finished := RunRound(inputs[rounds]);
        RoundsStep(start, inputs, rounds);
        rounds := rounds + 1;
        active := !finished;
      }
    }
  }

  /** Rounds are runs, so everything proved of runs holds of the main loop. */
  lemma {:induction false} RoundsAreRuns(s: State, inputs: seq<RoundInput>) returns (steps: seq<Step>)
    ensures Rounds(s, inputs) == Run(s, steps)
    decreases |inputs|
  {
    if inputs == [] {
      steps := [];
    } else {
      var rest := RoundsAreRuns(Round(s, inputs[0]), inputs[1..]);
      RunConcat(s, StepsOf(s, inputs[0]), rest);
      steps := StepsOf(s, inputs[0]) + rest;
    }
  }

  /** Main-loop form of the run theorems: the invariant after every number of rounds. */
  lemma MainLoopSafe(tasks: seq<string>, inputs: seq<RoundInput>)
    ensures Inv(Rounds(Init(tasks), inputs))
  {
    var steps := RoundsAreRuns(Init(tasks), inputs);
    InitInv(tasks);
    RunKeepsInv(Init(tasks), steps);
  }
}
