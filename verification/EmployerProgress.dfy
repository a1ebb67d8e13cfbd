/** Progress: while nothing goes wrong the work gets done, and no employee is
    left without work that is waiting. */
module EmployerProgress {
  import opened Options
  import opened EmployerState
  import opened EmployerInvariants
  import opened EmployerLoad
  import opened EmployerCounters

  // ---------------------------------------------------------- no room wasted

  /** No employee can take another task. */
  predicate AllBusy(es: seq<Employee>) {
    FindFree(es) == |es|
  }

  ghost predicate SomeWaiting(s: State) {
    exists i: nat :: Pending(s, i)
  }

  /** Those of the first `n` waiting tasks that name nobody wait because everybody is busy. */
  ghost predicate WaitsForRoom(s: State, n: nat) {
    (exists i :: 0 <= i < n && Pending(s, i) && s.assignments[i].employeeIp == "") ==> AllBusy(s.employees)
  }

  lemma AssignKeepsWaits(m: State, n: nat, now: int)
    requires Inv(m) && Fair(m) && WaitsForRoom(m, n)
    ensures WaitsForRoom(ApplyAssign(m, n, now), n + 1)
  {
    var m' := ApplyAssign(m, n, now);
    if i :| 0 <= i < n + 1 && Pending(m', i) && m'.assignments[i].employeeIp == "" {
      if i < n {
        assert Pending(m, i) && m.assignments[i].employeeIp == "";
      }
      assert AllBusy(m.employees);
    }
  }

  lemma {:induction false} AssignPhaseWaits(s: State, n: nat, now: nat -> int)
    requires Boundary(s) && n <= |s.assignments|
    ensures WaitsForRoom(Run(s, AssignPass(n, now)), n)
    decreases n
  {
    hide Inv;
    hide Fair;
    hide ApplyAssign;
    if n > 0 {
      AssignPhaseWaits(s, n - 1, now);
      AssignPhase(s, n - 1, now);
      assert AssignPass(n, now) == AssignPass(n - 1, now) + [Assign(n - 1, now(n - 1))];
      RunSnoc(s, AssignPass(n - 1, now), Assign(n - 1, now(n - 1)));
      AssignKeepsWaits(Run(s, AssignPass(n - 1, now)), n - 1, now(n - 1));
    }
  }

  /** From the state between two rounds: if every send that is tried gets through,
      a task is left waiting only when every employee is busy. */
  lemma NoRoomWasted(s: State, now: nat -> int, ok: nat -> bool)
    requires Boundary(s)
    requires AllTriedSucceed(Run(s, AssignPass(|s.assignments|, now)), |s.assignments|, ok)
    ensures var n := |s.assignments|;
      var s2 := Run(Run(s, AssignPass(n, now)), SendPass(n, ok));
      && Boundary(s2) && |s2.assignments| == n
      && (SomeWaiting(s2) ==> AllBusy(s2.employees))
  {
    var n := |s.assignments|;
    var s1 := Run(s, AssignPass(n, now));
    AssignPhase(s, n, now);
    AssignPhaseWaits(s, n, now);
    SendPhase(s1, n, ok);
    StillWaiting(s1, n, ok);
  }

  /** A task that is waiting and unnamed after the sends was so before them. */
  lemma StillWaiting(s1: State, n: nat, ok: nat -> bool)
    requires n == |s1.assignments| && WaitsForRoom(s1, n)
    requires SentTo(s1, Run(s1, SendPass(n, ok)), n)
    ensures var s2 := Run(s1, SendPass(n, ok));
      SomeWaiting(s2) ==> AllBusy(s2.employees)
  {
    hide Run;
    hide Inv;
    hide Fair;
    hide FindFree;
    var s2 := Run(s1, SendPass(n, ok));
    if SomeWaiting(s2) {
      var i: nat :| Pending(s2, i);
      SendsKeepNames(s1, n, ok, i);
      assert s2.assignments[i].employeeIp == "";
      assert Pending(s1, i) && s1.assignments[i].employeeIp == "";
    }
  }

  lemma {:induction false} SendsKeepNames(s: State, n: nat, ok: nat -> bool, i: nat)
    requires i < |s.assignments|
    ensures var s' := Run(s, SendPass(n, ok));
      && |s'.assignments| == |s.assignments|
      && s'.assignments[i].employeeIp == s.assignments[i].employeeIp
      && (Pending(s', i) ==> Pending(s, i))
    decreases n
  {
    if n == 0 {
      assert Run(s, SendPass(0, ok)) == s;
    } else {
      SendsKeepNames(s, n - 1, ok, i);
      SendSnoc(s, n - 1, ok);
    }
  }

  /** A task that has been sent is with somebody. */
  ghost predicate Placed(asgs: seq<Assignment>) {
    forall i :: 0 <= i < |asgs| && asgs[i].sent && !asgs[i].completed ==> asgs[i].employeeIp != ""
  }

  ghost predicate Named(es: seq<Employee>) {
    forall k :: 0 <= k < |es| ==> es[k].ip != ""
  }

  // ------------------------------------------------------------ calm rounds

  /** Every employee is connected. */
  predicate Up(es: seq<Employee>) {
    forall j :: 0 <= j < |es| ==> es[j].conn.Some?
  }

  /** What employee `j` yields: a result of one of the tasks it was sent, if it
      has any, and otherwise nothing that matters. */
  ghost predicate Replies(m: State, j: nat, incoming: Incoming)
    requires j < |m.employees|
  {
    if Outstanding(m.assignments, m.employees[j].ip) > 0 then
      && incoming.Result?
      && var i := FindOpen(m.assignments, incoming.taskId);
         i < |m.assignments| && InFlight(m.assignments[i], m.employees[j].ip) == 1
    else
      incoming.Quiet? || incoming.Ignored?
  }

  ghost predicate AllReply(s1: State, incoming: nat -> Incoming, n: nat) {
    forall j :: 0 <= j < n ==>
      var m := Run(s1, ReceivePass(j, incoming));
      j < |m.employees| && Replies(m, j, incoming(j))
  }

  function AfterDiscovery(s: State, input: RoundInput): State {
    Run(s, Discovery(input))
  }

  function AfterReceive(s: State, input: RoundInput, n: nat): State {
    Run(AfterDiscovery(s, input), ReceivePass(n, input.incoming))
  }

  function AfterConfigure(s: State, input: RoundInput, n: nat): State {
    Run(AfterReceive(s, input, n), ConfigurePass(n, input.configOk))
  }

  function AfterSend(s: State, input: RoundInput, n: nat): State {
    var t := |s.assignments|;
    Run(Run(AfterConfigure(s, input, n), AssignPass(t, input.assignClock)), SendPass(t, input.sendOk))
  }

  /** A round in which employees come but do not go, everybody with tasks returns
      one, all connections work, and nothing takes too long. */
  ghost predicate Calm(s: State, input: RoundInput) {
    var s1 := AfterDiscovery(s, input);
    var n := |s1.employees|;
    && (input.broadcast.Some? ==>
          input.broadcast.value.Discover? && input.broadcast.value.ip != "" && input.broadcast.value.up)
    && AllReply(s1, input.incoming, n)
    && (forall j: nat :: input.configOk(j)) && (forall i: nat :: input.sendOk(i))
    && (forall i :: 0 <= i < |s.assignments| ==> !Overdue(AfterSend(s, input, n), i, input.expiryClock))
    && (forall j :: 0 <= j < |AfterSend(s, input, n).employees| ==>
          !Stale(AfterSend(s, input, n).employees[j], input.staleClock))
  }

  /** Tasks that have not come back. */
  function Unfinished(asgs: seq<Assignment>): nat {
    if asgs == [] then 0
    else Unfinished(asgs[..|asgs| - 1]) + if asgs[|asgs| - 1].completed then 0 else 1
  }

  lemma {:induction false} UnfinishedUpdate(asgs: seq<Assignment>, i: nat, a: Assignment)
    requires i < |asgs|
    ensures Unfinished(asgs[i := a])
            == Unfinished(asgs) - (if asgs[i].completed then 0 else 1) + if a.completed then 0 else 1
    decreases |asgs|
  {
    var n := |asgs| - 1;
    if i == n {
      assert asgs[i := a][..n] == asgs[..n];
    } else {
      UnfinishedUpdate(asgs[..n], i, a);
      assert asgs[i := a][..n] == asgs[..n][i := a];
    }
  }

  lemma {:induction false} SomeUnfinished(asgs: seq<Assignment>)
    ensures Unfinished(asgs) == 0 <==> forall i :: 0 <= i < |asgs| ==> asgs[i].completed
    decreases |asgs|
  {
    if asgs != [] {
      SomeUnfinished(asgs[..|asgs| - 1]);
      assert forall i :: 0 <= i < |asgs| - 1 ==> asgs[..|asgs| - 1][i] == asgs[i];
    }
  }

  /** Somebody in the table has a task to return, unless all are back. */
  ghost predicate Working(s: State) {
    Unfinished(s.assignments) > 0 ==>
      exists j :: 0 <= j < |s.employees| && Outstanding(s.assignments, s.employees[j].ip) > 0
  }

  // -------------------------------------------------------------- the phases

  lemma DiscoveryPhase(s: State, input: RoundInput)
    requires Boundary(s) && Up(s.employees)
    requires input.broadcast.Some? ==>
      input.broadcast.value.Discover? && input.broadcast.value.ip != "" && input.broadcast.value.up
    ensures var s1 := AfterDiscovery(s, input);
      && Boundary(s1) && Up(s1.employees) && s1.assignments == s.assignments
      && |s.employees| <= |s1.employees|
      && (forall j :: 0 <= j < |s.employees| ==> s1.employees[j].ip == s.employees[j].ip)
  {
    hide Boundary;
    DiscoveryIs(s, input);
    if input.broadcast.Some? {
      BoundaryStep(s, input.broadcast.value);
    }
  }

  /** One reply: the task is back, and nobody else's tasks are touched. */
  lemma ReplyStep(m: State, j: nat, incoming: Incoming)
    requires Boundary(m) && Up(m.employees) && j < |m.employees| && Replies(m, j, incoming)
    ensures var m' := ApplyReceive(m, j, incoming);
      && (Placed(m.assignments) ==> Placed(m'.assignments))
      && Boundary(m') && Up(m'.employees) && |m'.assignments| == |m.assignments|
      && |m'.employees| == |m.employees|
      && (forall k :: 0 <= k < |m.employees| ==> m'.employees[k].ip == m.employees[k].ip)
      && (forall k :: 0 <= k < |m.employees| && k != j ==>
            Outstanding(m'.assignments, m.employees[k].ip) == Outstanding(m.assignments, m.employees[k].ip))
      && Unfinished(m'.assignments) == Unfinished(m.assignments)
           - if Outstanding(m.assignments, m.employees[j].ip) > 0 then 1 else 0
  {
    hide Boundary;
    ReplyKeepsBoundary(m, j, incoming);
    if Outstanding(m.assignments, m.employees[j].ip) > 0 {
      TaskReturns(m, j, incoming);
    }
  }

  lemma ReplyKeepsBoundary(m: State, j: nat, incoming: Incoming)
    requires Boundary(m) && j < |m.employees| && Replies(m, j, incoming)
    ensures Inv(m) && Boundary(ApplyReceive(m, j, incoming))
  {
    BoundaryStep(m, Receive(j, incoming));
  }

  lemma TaskReturns(m: State, j: nat, incoming: Incoming)
    requires Inv(m) && Up(m.employees) && j < |m.employees| && Replies(m, j, incoming)
    requires Outstanding(m.assignments, m.employees[j].ip) > 0
    ensures var m' := ApplyReceive(m, j, incoming);
      && Unfinished(m'.assignments) == Unfinished(m.assignments) - 1
      && (forall k :: 0 <= k < |m.employees| && k != j ==>
            Outstanding(m'.assignments, m.employees[k].ip) == Outstanding(m.assignments, m.employees[k].ip))
  {
    var m' := ApplyReceive(m, j, incoming);
    var i := FindOpen(m.assignments, incoming.taskId);
    UnfinishedUpdate(m.assignments, i, m'.assignments[i]);
    forall k | 0 <= k < |m.employees| && k != j
      ensures Outstanding(m'.assignments, m.employees[k].ip) == Outstanding(m.assignments, m.employees[k].ip)
    {
      OutstandingUpdate(m.assignments, i, m'.assignments[i], m.employees[k].ip);
      assert m.employees[k].ip != m.employees[j].ip;
    }
  }

  /** After the first `j` replies. */
  ghost predicate Replied(s1: State, m: State, j: nat) {
    && Boundary(m) && Placed(m.assignments) && Up(m.employees) && |m.assignments| == |s1.assignments|
    && |m.employees| == |s1.employees| && j <= |s1.employees|
    && (forall k :: 0 <= k < |s1.employees| ==> m.employees[k].ip == s1.employees[k].ip)
    && (forall k :: j <= k < |s1.employees| ==>
          Outstanding(m.assignments, s1.employees[k].ip) == Outstanding(s1.assignments, s1.employees[k].ip))
    && Unfinished(m.assignments) <= Unfinished(s1.assignments)
    && ((exists k :: 0 <= k < j && Outstanding(s1.assignments, s1.employees[k].ip) > 0) ==>
          Unfinished(m.assignments) < Unfinished(s1.assignments))
  }

  lemma RepliedStep(s1: State, m: State, j: nat, incoming: Incoming)
    requires Replied(s1, m, j) && j < |s1.employees| && Replies(m, j, incoming)
    ensures Replied(s1, ApplyReceive(m, j, incoming), j + 1)
  {
    hide Boundary;
    hide ApplyReceive;
    hide Replies;
    ReplyStep(m, j, incoming);
  }

  lemma {:induction false} ReceivePhase(s1: State, incoming: nat -> Incoming, n: nat)
    requires Boundary(s1) && Placed(s1.assignments) && Up(s1.employees) && n <= |s1.employees|
    requires AllReply(s1, incoming, n)
    ensures Replied(s1, Run(s1, ReceivePass(n, incoming)), n)
    decreases n
  {
    hide Boundary;
    hide ApplyReceive;
    hide Replied;
    hide Replies;
    hide Run;
    if n == 0 {
      NoneReplied(s1, incoming);
    } else {
      var m := Run(s1, ReceivePass(n - 1, incoming));
      assert Replies(m, n - 1, incoming(n - 1));
      ReceivePhase(s1, incoming, n - 1);
      assert ReceivePass(n, incoming) == ReceivePass(n - 1, incoming) + [Receive(n - 1, incoming(n - 1))];
      RunSnoc(s1, ReceivePass(n - 1, incoming), Receive(n - 1, incoming(n - 1)));
      RepliedStep(s1, m, n - 1, incoming(n - 1));
    }
  }

  lemma NoneReplied(s1: State, incoming: nat -> Incoming)
    requires Boundary(s1) && Placed(s1.assignments) && Up(s1.employees)
    ensures Replied(s1, Run(s1, ReceivePass(0, incoming)), 0)
  {
    assert Run(s1, ReceivePass(0, incoming)) == s1;
  }

  /** After the first `n` employees have been configured. */
  ghost predicate Ready(s2: State, m: State, n: nat) {
    && Boundary(m) && Up(m.employees) && m.assignments == s2.assignments
    && |m.employees| == |s2.employees|
    && (forall k :: 0 <= k < n && k < |m.employees| ==> Reachable(m.employees[k]))
  }

  lemma ReadyStep(s2: State, m: State, n: nat)
    requires Ready(s2, m, n)
    ensures Ready(s2, ApplyConfigure(m, n, true), n + 1)
  {
    BoundaryStep(m, Configure(n, true));
  }

  lemma {:induction false} ConfigurePhase(s2: State, ok: nat -> bool, n: nat)
    requires Boundary(s2) && Up(s2.employees) && forall j: nat :: ok(j)
    ensures Ready(s2, Run(s2, ConfigurePass(n, ok)), n)
    decreases n
  {
    hide Boundary;
    hide ApplyConfigure;
    hide Ready;
    hide Run;
    if n == 0 {
      NoneReady(s2, ok);
    } else {
      ConfigurePhase(s2, ok, n - 1);
      assert ConfigurePass(n, ok) == ConfigurePass(n - 1, ok) + [Configure(n - 1, true)];
      RunSnoc(s2, ConfigurePass(n - 1, ok), Configure(n - 1, true));
      ReadyStep(s2, Run(s2, ConfigurePass(n - 1, ok)), n - 1);
    }
  }

  lemma NoneReady(s2: State, ok: nat -> bool)
    requires Boundary(s2) && Up(s2.employees)
    ensures Ready(s2, Run(s2, ConfigurePass(0, ok)), 0)
  {
    assert Run(s2, ConfigurePass(0, ok)) == s2;
  }

  lemma EmptyPasses(s: State, ok: nat -> bool, now: nat -> int)
    ensures Run(s, SendPass(0, ok)) == s && Run(s, AssignPass(0, now)) == s
  {
  }

  lemma {:induction false} SendsKeepUp(s: State, n: nat, ok: nat -> bool)
    requires Named(s.employees) && Placed(s.assignments) && forall i: nat :: ok(i)
    ensures Run(s, SendPass(n, ok)).employees == s.employees
    ensures Placed(Run(s, SendPass(n, ok)).assignments)
    ensures Unfinished(Run(s, SendPass(n, ok)).assignments) == Unfinished(s.assignments)
    decreases n
  {
    hide ApplySend;
    hide Unfinished;
    hide Run;
    if n == 0 {
      EmptyPasses(s, ok, i => 0);
    } else {
      SendsKeepUp(s, n - 1, ok);
      SendSnoc(s, n - 1, ok);
      OneSendKeeps(Run(s, SendPass(n - 1, ok)), n - 1);
    }
  }

  lemma OneSendKeeps(m: State, i: nat)
    requires Named(m.employees) && Placed(m.assignments)
    ensures var m' := ApplySend(m, i, true);
      m'.employees == m.employees && Placed(m'.assignments) && Unfinished(m'.assignments) == Unfinished(m.assignments)
  {
    if i < |m.assignments| {
      UnfinishedUpdate(m.assignments, i, ApplySend(m, i, true).assignments[i]);
      assert m.assignments[i := m.assignments[i]] == m.assignments;
    }
  }

  lemma OneAssignKeeps(m: State, i: nat, now: int)
    requires Named(m.employees) && Placed(m.assignments)
    ensures var m' := ApplyAssign(m, i, now);
      && |m'.employees| == |m.employees|
      && (forall k :: 0 <= k < |m.employees| ==>
            && m'.employees[k].conn == m.employees[k].conn && m'.employees[k].stage == m.employees[k].stage
            && m'.employees[k].ip == m.employees[k].ip)
      && Placed(m'.assignments) && Unfinished(m'.assignments) == Unfinished(m.assignments)
  {
    if i < |m.assignments| {
      UnfinishedUpdate(m.assignments, i, ApplyAssign(m, i, now).assignments[i]);
      assert m.assignments[i := m.assignments[i]] == m.assignments;
    }
  }

  lemma {:induction false} AssignsKeepUp(s: State, n: nat, now: nat -> int)
    requires Named(s.employees) && Placed(s.assignments)
    ensures var s' := Run(s, AssignPass(n, now));
      && |s'.employees| == |s.employees|
      && (forall k :: 0 <= k < |s.employees| ==>
            && s'.employees[k].conn == s.employees[k].conn && s'.employees[k].stage == s.employees[k].stage
            && s'.employees[k].ip == s.employees[k].ip)
      && Placed(s'.assignments)
      && Unfinished(s'.assignments) == Unfinished(s.assignments)
    decreases n
  {
    hide ApplyAssign;
    hide Unfinished;
    hide Run;
    hide Placed;
    if n == 0 {
      EmptyPasses(s, i => true, now);
    } else {
      AssignsKeepUp(s, n - 1, now);
      assert AssignPass(n, now) == AssignPass(n - 1, now) + [Assign(n - 1, now(n - 1))];
      RunSnoc(s, AssignPass(n - 1, now), Assign(n - 1, now(n - 1)));
      OneAssignKeeps(Run(s, AssignPass(n - 1, now)), n - 1, now(n - 1));
    }
  }

  /** When a task waits and everybody is busy, somebody has a task to return; and
      a task that does not wait is with somebody. */
  lemma BusyIsWorking(s: State)
    requires Boundary(s) && Placed(s.assignments) && |s.employees| > 0
    requires forall k :: 0 <= k < |s.employees| ==> Reachable(s.employees[k])
    requires SomeWaiting(s) ==> AllBusy(s.employees)
    ensures Working(s)
  {
    ExactWhenSettled(s);
    SomeUnfinished(s.assignments);
    if Unfinished(s.assignments) > 0 {
      var i :| 0 <= i < |s.assignments| && !s.assignments[i].completed;
      if s.assignments[i].sent {
        SentIsKnown(s, i);
      } else {
        assert Pending(s, i);
        assert !CanTake(s.employees[0]);
        assert Outstanding(s.assignments, s.employees[0].ip) > 0;
      }
    }
  }

  lemma SentIsKnown(s: State, i: nat)
    requires Boundary(s) && i < |s.assignments| && s.assignments[i].sent && !s.assignments[i].completed
    requires s.assignments[i].employeeIp != ""
    ensures exists j :: 0 <= j < |s.employees| && Outstanding(s.assignments, s.employees[j].ip) > 0
  {
    assert Known(s.employees, s.assignments[i]);
    var j :| 0 <= j < |s.employees| && s.employees[j].ip == s.assignments[i].employeeIp;
    SentCounts(s.assignments, i, s.employees[j].ip);
  }

  lemma {:induction false} NothingExpires(s: State, n: nat, now: int)
    requires n <= |s.assignments|
    requires forall i :: 0 <= i < |s.assignments| ==> !Overdue(s, i, now)
    ensures Run(s, ExpirePass(n, now)) == s
    decreases n
  {
    if n > 0 {
      NothingExpires(s, n - 1, now);
      assert ExpirePass(n, now) == ExpirePass(n - 1, now) + [Expire(n - 1, now)];
      RunSnoc(s, ExpirePass(n - 1, now), Expire(n - 1, now));
    }
  }

  lemma {:induction false} NobodyStale(es: seq<Employee>, i: nat, now: int)
    requires i <= |es| && forall j :: 0 <= j < |es| ==> !Stale(es[j], now)
    ensures Sweep(es, i, now) == es
    decreases |es| - i
  {
    if i < |es| { NobodyStale(es, i + 1, now); }
  }

  /** What every calm round leaves. */
  ghost predicate Steady(s: State) {
    Boundary(s) && Placed(s.assignments) && Up(s.employees)
  }

  /** The last two phases of a calm round change nothing. */
  lemma CalmRound(s: State, input: RoundInput)
    requires Calm(s, input)
    requires var n := |AfterDiscovery(s, input).employees|;
      |AfterDiscovery(s, input).assignments| == |AfterSend(s, input, n).assignments| == |s.assignments|
    ensures Round(s, input) == AfterSend(s, input, |AfterDiscovery(s, input).employees|)
  {
    hide Run;
    var n, t := |AfterDiscovery(s, input).employees|, |s.assignments|;
    var s5 := AfterSend(s, input, n);
    NothingExpires(s5, t, input.expiryClock);
    NobodyStale(s5.employees, 0, input.staleClock);
    DiscoveryIs(s, input);
    PhasesMakeRound(s, AfterDiscovery(s, input), AfterReceive(s, input, n), AfterConfigure(s, input, n),
                    Run(AfterConfigure(s, input, n), AssignPass(t, input.assignClock)), s5, s5, input);
  }

  lemma DiscoveryIs(s: State, input: RoundInput)
    ensures AfterDiscovery(s, input) == if input.broadcast.Some? then Apply(s, input.broadcast.value) else s
  {
    if input.broadcast.Some? {
      assert Discovery(input) == [] + [input.broadcast.value];
      RunSnoc(s, [], input.broadcast.value);
    }
  }

  /** The phases up to the assignments. */
  lemma EarlyPhases(s: State, input: RoundInput)
    requires Steady(s) && Calm(s, input)
    ensures var s1 := AfterDiscovery(s, input);
      var n := |s1.employees|;
      && s1.assignments == s.assignments && n >= |s.employees|
      && Replied(s1, AfterReceive(s, input, n), n)
      && Ready(AfterReceive(s, input, n), AfterConfigure(s, input, n), n)
      && (Working(s) && Unfinished(s.assignments) > 0 ==>
            Unfinished(AfterConfigure(s, input, n).assignments) < Unfinished(s.assignments))
  {
    hide Boundary;
    hide Run;
    hide Replied;
    hide Ready;
    hide Replies;
    hide AfterDiscovery;
    var s1 := AfterDiscovery(s, input);
    var n := |s1.employees|;
    DiscoveryPhase(s, input);
    ReceivePhase(s1, input.incoming, n);
    RepliedMeans(s1, AfterReceive(s, input, n));
    ConfigurePhase(AfterReceive(s, input, n), input.configOk, n);
    ReadyMeans(AfterReceive(s, input, n), AfterConfigure(s, input, n), n);
    if Working(s) && Unfinished(s.assignments) > 0 {
      OneBack(s, s1, AfterReceive(s, input, n));
    }
  }

  lemma RepliedMeans(s1: State, m: State)
    requires Replied(s1, m, |s1.employees|)
    ensures Boundary(m) && Up(m.employees)
  {
  }

  lemma ReadyMeans(s2: State, m: State, n: nat)
    requires Ready(s2, m, n)
    ensures m.assignments == s2.assignments
  {
  }

  lemma OneBack(s: State, s1: State, m: State)
    requires Replied(s1, m, |s1.employees|) && s1.assignments == s.assignments
    requires |s.employees| <= |s1.employees|
    requires forall j :: 0 <= j < |s.employees| ==> s1.employees[j].ip == s.employees[j].ip
    requires Working(s) && Unfinished(s.assignments) > 0
    ensures Unfinished(m.assignments) < Unfinished(s.assignments)
  {
    var j :| 0 <= j < |s.employees| && Outstanding(s.assignments, s.employees[j].ip) > 0;
    assert s1.employees[j].ip == s.employees[j].ip;
  }

  /** A calm round brings at least one task back, if somebody has one.  After it
      everybody has been configured, somebody has a task as long as not all are
      back, and a task waits only if all are busy: room that a result made, or a
      newcomer brought, has been used in the same round. */
  lemma RoundProgresses(s: State, input: RoundInput)
    requires Steady(s) && Calm(s, input) && |AfterDiscovery(s, input).employees| > 0
    ensures var s' := Round(s, input);
      && Steady(s') && Working(s') && |s'.employees| > 0 && |s'.assignments| == |s.assignments|
      && (forall k :: 0 <= k < |s'.employees| ==> Reachable(s'.employees[k]))
      && (SomeWaiting(s') ==> AllBusy(s'.employees))
      && Unfinished(s'.assignments) <= Unfinished(s.assignments)
      && (Working(s) && Unfinished(s.assignments) > 0 ==> Unfinished(s'.assignments) < Unfinished(s.assignments))
  {
    var n, t := |AfterDiscovery(s, input).employees|, |s.assignments|;
    EarlyPhases(s, input);
    var s3 := AfterConfigure(s, input, n);
    LatePhases(s3, input, t);
    CalmRound(s, input);
  }

  lemma BoundaryNamed(s: State)
    requires Boundary(s)
    ensures Named(s.employees)
  {
  }

  lemma LatePhases(s3: State, input: RoundInput, t: nat)
    requires Boundary(s3) && Placed(s3.assignments) && |s3.employees| > 0 && t == |s3.assignments|
    requires forall k :: 0 <= k < |s3.employees| ==> Reachable(s3.employees[k])
    requires forall i: nat :: input.sendOk(i)
    ensures var s5 := Run(Run(s3, AssignPass(t, input.assignClock)), SendPass(t, input.sendOk));
      && Steady(s5) && Working(s5) && |s5.employees| > 0 && |s5.assignments| == t
      && (forall k :: 0 <= k < |s5.employees| ==> Reachable(s5.employees[k]))
      && (SomeWaiting(s5) ==> AllBusy(s5.employees))
      && Unfinished(s5.assignments) == Unfinished(s3.assignments)
  {
    hide Boundary;
    hide Run;
    BoundaryNamed(s3);
    var s4 := Run(s3, AssignPass(t, input.assignClock));
    NoRoomWasted(s3, input.assignClock, input.sendOk);
    AssignsKeepUp(s3, t, input.assignClock);
    SendsKeepUp(s4, t, input.sendOk);
    BusyIsWorking(Run(s4, SendPass(t, input.sendOk)));
  }

  // ---------------------------------------------------------------- theorem

  /** All rounds are calm, and from the first one on there is somebody to work. */
  ghost predicate CalmRounds(s: State, inputs: seq<RoundInput>) {
    forall k :: 0 <= k < |inputs| ==>
      Calm(Rounds(s, inputs[..k]), inputs[k])
      && |AfterDiscovery(Rounds(s, inputs[..k]), inputs[k]).employees| > 0
  }

  lemma {:induction false} CalmRun(tasks: seq<string>, inputs: seq<RoundInput>, k: nat)
    requires CalmRounds(Init(tasks), inputs) && k <= |inputs|
    ensures var s := Rounds(Init(tasks), inputs[..k]);
      && Steady(s) && |s.assignments| == |tasks|
      && (k > 0 ==> Working(s))
      && (k > 0 ==> Unfinished(s.assignments) <= if k <= |tasks| then |tasks| + 1 - k else 0)
    decreases k
  {
    hide Steady;
    hide Working;
    hide Round;
    hide Rounds;
    if k == 0 {
      StartsSteady(tasks, inputs);
    } else {
      CalmRun(tasks, inputs, k - 1);
      RoundsStep(Init(tasks), inputs, k - 1);
      var m := Rounds(Init(tasks), inputs[..k - 1]);
      RoundProgresses(m, inputs[k - 1]);
      UnfinishedAtMost(m.assignments);
    }
  }

  lemma StartsSteady(tasks: seq<string>, inputs: seq<RoundInput>)
    ensures Rounds(Init(tasks), inputs[..0]) == Init(tasks) && Steady(Init(tasks))
    ensures |Init(tasks).assignments| == |tasks|
  {
    InitBoundary(tasks);
  }

  lemma {:induction false} UnfinishedAtMost(asgs: seq<Assignment>)
    ensures Unfinished(asgs) <= |asgs|
    decreases |asgs|
  {
    if asgs != [] { UnfinishedAtMost(asgs[..|asgs| - 1]); }
  }

  /** If all rounds are calm, every task has come back after one round more than
      there are tasks: each round but the first brings back at least one. */
  lemma AllTasksComeBack(tasks: seq<string>, inputs: seq<RoundInput>)
    requires CalmRounds(Init(tasks), inputs) && |inputs| > |tasks|
    ensures var s := Rounds(Init(tasks), inputs);
      |s.assignments| == |tasks| && forall i :: 0 <= i < |tasks| ==> s.assignments[i].completed
  {
    CalmRun(tasks, inputs, |inputs|);
    assert inputs[..|inputs|] == inputs;
    SomeUnfinished(Rounds(Init(tasks), inputs).assignments);
  }
}
