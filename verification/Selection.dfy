/** `select_best_employee` and the balance its round-robin policy keeps. */
module Selection {
  import opened Arithmetic

  datatype Policy = RoundRobin | LoadBalanced | PriorityBased | DeadlineAware

  datatype Candidate = Candidate(cpu: real, memory: real, active: nat, available: bool)

  /** `remaining` is the time to the deadline as read from the clock just then. */
  function Score(policy: Policy, c: Candidate, priority: int, remaining: real): real {
    match policy
    case LoadBalanced => (100.0 - c.cpu) + (100.0 - c.memory) - c.active as real * 10.0
    case RoundRobin => 100.0 - c.active as real
    case PriorityBased => (100.0 - c.cpu) * (priority as real / 10.0)
    case DeadlineAware => remaining / (c.active + 1) as real
  }

  datatype Query = Query(policy: Policy, priority: int, remaining: nat -> real)

  function ScoreAt(cs: seq<Candidate>, q: Query, i: nat): real
    requires i < |cs|
  {
    Score(q.policy, cs[i], q.priority, q.remaining(i))
  }

  /** Only candidates that are available and score above -1 can be chosen. */
  predicate Eligible(cs: seq<Candidate>, q: Query, i: nat)
    requires i < |cs|
  {
    cs[i].available && ScoreAt(cs, q, i) > -1.0
  }

  /** The first of the eligible candidates with the highest score, or -1. */
  ghost predicate IsBest(cs: seq<Candidate>, q: Query, best: int) {
    if best == -1 then
      forall i :: 0 <= i < |cs| ==> !Eligible(cs, q, i)
    else
      && 0 <= best < |cs| && Eligible(cs, q, best)
      && (forall i :: 0 <= i < |cs| && Eligible(cs, q, i) ==> ScoreAt(cs, q, i) <= ScoreAt(cs, q, best))
      && (forall i :: 0 <= i < best && Eligible(cs, q, i) ==> ScoreAt(cs, q, i) < ScoreAt(cs, q, best))
  }

  method SelectBest(cs: seq<Candidate>, q: Query) returns (best: int)
    ensures IsBest(cs, q, best)
  {
    best := -1;
    if |cs| == 0 {
      return;
    }
    var bestScore := -1.0;
    for i := 0 to |cs|
      invariant -1 <= best < i
      invariant best == -1 ==> bestScore == -1.0
      invariant best >= 0 ==> Eligible(cs, q, best) && bestScore == ScoreAt(cs, q, best)
      invariant forall k :: 0 <= k < i && cs[k].available ==> ScoreAt(cs, q, k) <= bestScore
      invariant forall k :: 0 <= k < best && cs[k].available ==> ScoreAt(cs, q, k) < bestScore
    {
      if cs[i].available {
        var score := Score(q.policy, cs[i], q.priority, q.remaining(i));
        if score > bestScore {
          bestScore, best := score, i;
        }
      }
    }
  }

  // ------------------------------------------------------------------- goals

  /** Use of processor and memory in percent, an active task counting as ten. */
  function Use(c: Candidate): real {
    c.cpu + c.memory + 10.0 * c.active as real
  }

  /** What a policy is for: `chosen` is not busier than `other`, by its measure. */
  predicate Goal(policy: Policy, chosen: Candidate, other: Candidate) {
    match policy
    case LoadBalanced => Use(chosen) <= Use(other)
    case RoundRobin => chosen.active <= other.active
    case PriorityBased => chosen.cpu <= other.cpu
    case DeadlineAware => chosen.active <= other.active
  }

  /** `best` is chosen while `i` is available too. */
  ghost predicate ChosenOver(cs: seq<Candidate>, q: Query, best: nat, i: nat) {
    IsBest(cs, q, best) && best < |cs| && i < |cs| && cs[i].available
  }

  /** The choice meets the goal, except for work without a positive priority or
      without time left: a score of nothing picks the first available, and a
      negative one the busiest.  The clock is read once a candidate, so by
      deadline this is certain only if the choice's reading was not the greater. */
  lemma ChoiceMeetsGoal(cs: seq<Candidate>, q: Query, best: nat, i: nat)
    requires ChosenOver(cs, q, best, i)
    ensures q.policy.RoundRobin? || q.policy.LoadBalanced? ==> Goal(q.policy, cs[best], cs[i])
    ensures q.policy.PriorityBased? ==>
      if q.priority > 0 then cs[best].cpu <= cs[i].cpu
      else if q.priority == 0 then best <= i
      else cs[best].cpu >= cs[i].cpu
    ensures q.policy.DeadlineAware? && q.remaining(best) <= q.remaining(i) ==>
      if q.remaining(i) > 0.0 then cs[best].active <= cs[i].active
      else if q.remaining(i) == 0.0 then best <= i
      else cs[best].active >= cs[i].active
  {
    assert ScoreAt(cs, q, i) <= ScoreAt(cs, q, best);
    match q.policy
    case PriorityBased => PriorityChoice(cs, q, best, i);
    case DeadlineAware => DeadlineChoice(cs, q, best, i);
    case _ =>
  }

  lemma PriorityChoice(cs: seq<Candidate>, q: Query, best: nat, i: nat)
    requires q.policy.PriorityBased? && ChosenOver(cs, q, best, i)
    ensures if q.priority > 0 then cs[best].cpu <= cs[i].cpu
            else if q.priority == 0 then best <= i
            else cs[best].cpu >= cs[i].cpu
  {
    var x, y, z := 100.0 - cs[best].cpu, 100.0 - cs[i].cpu, q.priority as real / 10.0;
    assert ScoreAt(cs, q, best) == x * z && ScoreAt(cs, q, i) == y * z;
    assert y * z <= x * z;
    ProductOrder(x, y, z);
    ProductOrder(y, x, z);
    if q.priority == 0 { assert x * z == 0.0 && y * z == 0.0; }
  }

  lemma DeadlineChoice(cs: seq<Candidate>, q: Query, best: nat, i: nat)
    requires q.policy.DeadlineAware? && ChosenOver(cs, q, best, i)
    ensures q.remaining(best) <= q.remaining(i) ==>
      if q.remaining(i) > 0.0 then cs[best].active <= cs[i].active
      else if q.remaining(i) == 0.0 then best <= i
      else cs[best].active >= cs[i].active
  {
    var r, x := q.remaining(best), (cs[best].active + 1) as real;
    var s, y := q.remaining(i), (cs[i].active + 1) as real;
    assert ScoreAt(cs, q, best) == r / x && ScoreAt(cs, q, i) == s / y;
    CrossMultiply(r, x, s, y);
    assert s * x <= r * y;
    if r <= s {
      LighterOrBusier(r, x, s, y);
      if s == 0.0 { assert ScoreAt(cs, q, i) == 0.0 && ScoreAt(cs, q, best) == 0.0; }
    }
  }

  lemma LighterOrBusier(r: real, x: real, s: real, y: real)
    requires x > 0.0 && y > 0.0 && r <= s && s * x <= r * y
    ensures s > 0.0 ==> x <= y
    ensures s == 0.0 ==> r == 0.0
    ensures s < 0.0 ==> y <= x
  {
    ProductOrder(s, r, y);
    ProductOrder(s, r, x);
    assert s * x <= s * y && r * x <= r * y by {
      ProductOrder(r, s, x);
      ProductOrder(r, s, y);
    }
    assert s == 0.0 ==> s * x == 0.0;
    assert y * s == s * y && x * s == s * x && y * r == r * y && x * r == r * x;
    if s > 0.0 {
      ProductOrder(y, x, s);
    } else if s < 0.0 {
      ProductOrder(x, y, r);
    } else if r < 0.0 {
      ProductOrder(0.0, y, r);
    }
  }

  /** Too busy to be chosen, whoever else there is: by the measure of the policy,
      without its division. */
  predicate TooBusy(q: Query, c: Candidate, remaining: real) {
    match q.policy
    case LoadBalanced => Use(c) >= 201.0
    case RoundRobin => c.active >= 101
    case PriorityBased => (100.0 - c.cpu) * q.priority as real <= -10.0
    case DeadlineAware => remaining + c.active as real + 1.0 <= 0.0
  }

  /** Nobody is chosen exactly when everybody available is too busy. */
  lemma NobodyExactly(cs: seq<Candidate>, q: Query, best: int)
    requires IsBest(cs, q, best)
    ensures best == -1 <==> forall i :: 0 <= i < |cs| && cs[i].available ==> TooBusy(q, cs[i], q.remaining(i))
  {
    forall i | 0 <= i < |cs|
      ensures Eligible(cs, q, i) <==> cs[i].available && !TooBusy(q, cs[i], q.remaining(i))
    {
      BusyExactly(cs, q, i);
    }
  }

  lemma BusyExactly(cs: seq<Candidate>, q: Query, i: nat)
    requires i < |cs|
    ensures ScoreAt(cs, q, i) <= -1.0 <==> TooBusy(q, cs[i], q.remaining(i))
  {
    var c := cs[i];
    match q.policy
    case PriorityBased =>
      var x, p := 100.0 - c.cpu, q.priority as real;
      assert x * (p / 10.0) == x * p / 10.0;
    case DeadlineAware =>
      var n := (c.active + 1) as real;
      assert ScoreAt(cs, q, i) == q.remaining(i) / n;
      CrossMultiply(-1.0, 1.0, q.remaining(i), n);
    case _ =>
  }

  /** Whatever candidates there are. */
  ghost predicate AlwaysMeetsGoal(q: Query) {
    forall cs, best: nat, i: nat :: ChosenOver(cs, q, best, i) ==> Goal(q.policy, cs[best], cs[i])
  }

  /** Every reading of the clock shows the same time left, and there is some. */
  ghost predicate SteadyTimeLeft(q: Query) {
    q.remaining(0) > 0.0 && forall i: nat, j: nat :: q.remaining(i) == q.remaining(j)
  }

  /** A policy does what it is for, whatever candidates there are, if and only if
      the task's priority is positive, or time is left and the clock stands still
      during the selection, where the policy uses them. */
  lemma GoalMetExactly(q: Query)
    ensures AlwaysMeetsGoal(q) <==>
      (q.policy.PriorityBased? ==> q.priority > 0) && (q.policy.DeadlineAware? ==> SteadyTimeLeft(q))
  {
    if q.policy.PriorityBased? && q.priority <= 0 {
      PicksBusyProcessor(q);
    } else if q.policy.DeadlineAware? && !SteadyTimeLeft(q) {
      DeadlineMisses(q);
    } else {
      forall cs, best: nat, i: nat | ChosenOver(cs, q, best, i) ensures Goal(q.policy, cs[best], cs[i]) {
        ChoiceMeetsGoal(cs, q, best, i);
        if q.policy.DeadlineAware? { assert q.remaining(0) == q.remaining(i) == q.remaining(best); }
      }
    }
  }

  /** Without a positive priority a saturated processor is taken before an idle one. */
  lemma PicksBusyProcessor(q: Query)
    requires q.policy.PriorityBased? && q.priority <= 0
    ensures var cs := [Candidate(100.0, 0.0, 0, true), Candidate(0.0, 0.0, 0, true)];
      ChosenOver(cs, q, 0, 1) && !Goal(q.policy, cs[0], cs[1])
  {
    var cs := [Candidate(100.0, 0.0, 0, true), Candidate(0.0, 0.0, 0, true)];
    assert ScoreAt(cs, q, 0) == 0.0;
    assert ScoreAt(cs, q, 1) == 10.0 * q.priority as real;
  }

  /** One second passes between two candidates: with two seconds left for the one
      that is looked at first, it is taken although the other is idle. */
  lemma ClockTicks(q: Query)
    requires q.policy.DeadlineAware? && q.remaining(0) == 2.0 && q.remaining(1) == 1.0
    ensures var cs := [Candidate(0.0, 0.0, 1, true), Candidate(0.0, 0.0, 0, true)];
      ChosenOver(cs, q, 0, 1) && !Goal(q.policy, cs[0], cs[1])
  {
    var cs := [Candidate(0.0, 0.0, 1, true), Candidate(0.0, 0.0, 0, true)];
    assert ScoreAt(cs, q, 0) == 1.0 && ScoreAt(cs, q, 1) == 1.0;
  }

  /** Once a deadline has passed, a loaded candidate is taken before an idle one. */
  lemma PicksLoaded(q: Query, load: nat)
    requires q.policy.DeadlineAware? && load > 0
    requires q.remaining(1) <= q.remaining(0) <= 0.0 && -q.remaining(0) < (load + 1) as real
    ensures var cs := Two(0, load, 1, 0);
      ChosenOver(cs, q, 0, 1) && !Goal(q.policy, cs[0], cs[1])
  {
    OverdueScore(q.remaining(0), (load + 1) as real);
    TwoCompete(q, 0, load, 1, 0);
  }

  /** A table in which only `i` and `j` are available. */
  function Two(i: nat, a: nat, j: nat, b: nat): (cs: seq<Candidate>)
    requires i != j
    ensures i < |cs| && j < |cs| && cs[i] == Candidate(0.0, 0.0, a, true) && cs[j] == Candidate(0.0, 0.0, b, true)
    ensures forall k :: 0 <= k < |cs| && k != i && k != j ==> !cs[k].available
  {
    seq(i + j + 1, k requires 0 <= k < i + j + 1 =>
      Candidate(0.0, 0.0, if k == i then a else if k == j then b else 0, k == i || k == j))
  }

  lemma TwoCompete(q: Query, i: nat, a: nat, j: nat, b: nat)
    requires q.policy.DeadlineAware? && i != j && a > b
    requires var r, s := q.remaining(i) / (a + 1) as real, q.remaining(j) / (b + 1) as real;
      r > -1.0 && (s < r || (s == r && i < j))
    ensures var cs := Two(i, a, j, b);
      ChosenOver(cs, q, i, j) && !Goal(q.policy, cs[i], cs[j])
  {
    var cs := Two(i, a, j, b);
    assert ScoreAt(cs, q, i) == q.remaining(i) / (a + 1) as real;
    assert ScoreAt(cs, q, j) == q.remaining(j) / (b + 1) as real;
  }

  /** Readings that differ, or are not positive, let a loaded candidate win. */
  lemma DeadlineMisses(q: Query)
    requires q.policy.DeadlineAware? && !SteadyTimeLeft(q)
    ensures !AlwaysMeetsGoal(q)
  {
    if q.remaining(0) == q.remaining(1) <= 0.0 {
      var load := (-q.remaining(0)).Floor + 1;
      PicksLoaded(q, load);
    } else {
      var i, j := LaterReading(q);
      var a, b := WinningLoads(q.remaining(i), q.remaining(j));
      TwoCompete(q, i, a, j, b);
    }
  }

  lemma LaterReading(q: Query) returns (i: nat, j: nat)
    requires !SteadyTimeLeft(q) && !(q.remaining(0) == q.remaining(1) <= 0.0)
    ensures q.remaining(i) > q.remaining(j)
  {
    if q.remaining(0) != q.remaining(1) {
      i, j := 0, 1;
    } else {
      i, j :| q.remaining(i) != q.remaining(j);
    }
    if q.remaining(i) < q.remaining(j) { i, j := j, i; }
  }

  /** With enough load on both, one task more weighs less than the time lost
      between two readings; with none left, any load makes a score less bad. */
  lemma WinningLoads(r: real, s: real) returns (a: nat, b: nat)
    requires r > s
    ensures a > b && r / (a + 1) as real > -1.0 && r / (a + 1) as real > s / (b + 1) as real
  {
    if s > 0.0 {
      b := Enough(s, r - s);
      a := b + 1;
      TickWins(r, s, (b + 1) as real);
      assert (a + 1) as real == (b + 1) as real + 1.0;
    } else {
      b := 0;
      a := if r > 0.0 then 1 else (-r).Floor + 1;
      if r <= 0.0 { OverdueScore(r, (a + 1) as real); }
    }
  }

  lemma Enough(s: real, step: real) returns (b: nat)
    requires s > 0.0 && step > 0.0
    ensures step * (b + 1) as real > s
  {
    var d := s / step;
    assert d * step == s;
    ProductOrder(0.0, d, step);
    b := d.Floor;
    var n := (b + 1) as real;
    assert d < n;
    ProductOrder(d, n, step);
    assert step * n == n * step;
    assert s < n * step;
  }

  lemma TickWins(r: real, s: real, n: real)
    requires r > s > 0.0 && n > 0.0 && (r - s) * n > s
    ensures r / (n + 1.0) > s / n && r / (n + 1.0) > 0.0
  {
    assert s * (n + 1.0) == s * n + s;
    assert (r - s) * n == r * n - s * n;
    CrossMultiply(s, n, r, n + 1.0);
    var p := r / (n + 1.0);
    assert p * (n + 1.0) == r;
    ProductOrder(0.0, p, n + 1.0);
  }

  lemma OverdueScore(r: real, n: real)
    requires r <= 0.0 && n > 1.0 && -r < n
    ensures -1.0 < r / n && r <= r / n
  {
    var p := r / n;
    assert p * n == r;
    assert -1.0 < p by {
      ProductOrder(-1.0, p, n);
      assert -1.0 * n == -n;
    }
    assert p <= 0.0 by { ProductOrder(0.0, p, n); }
    assert r <= p by {
      ProductOrder(n, 1.0, p);
      assert n * p == r;
    }
  }

  lemma ProductOrder(x: real, y: real, z: real)
    ensures z > 0.0 ==> (x < y <==> x * z < y * z)
    ensures z < 0.0 ==> (x < y <==> x * z > y * z)
  {
    assert x * z - y * z == (x - y) * z;
  }

  lemma CrossMultiply(r: real, x: real, s: real, y: real)
    requires x > 0.0 && y > 0.0
    ensures s / y <= r / x <==> s * x <= r * y
  {
    var p, q := r / x, s / y;
    assert p * x == r && q * y == s;
    assert r * y == p * (x * y);
    assert s * x == q * (x * y);
    ProductOrder(p, q, x * y);
  }

  // ----------------------------------------------------------------- balance

  /** The chosen candidate, if there is one, gets one more task. */
  function Given(cs: seq<Candidate>, best: int): seq<Candidate> {
    if 0 <= best < |cs| then cs[best := cs[best].(active := cs[best].active + 1)] else cs
  }

  /** `k` tasks dealt evenly, in order, onto `n` equal loads. */
  function Share(n: nat, load: nat, k: nat, i: nat): nat
    requires n > 0
  {
    load + k / n + if i < k % n then 1 else 0
  }

  predicate Dealt(cs: seq<Candidate>, load: nat, k: nat) {
    cs != [] && forall i :: 0 <= i < |cs| ==> cs[i].available && cs[i].active == Share(|cs|, load, k, i)
  }

  /** Selections that succeed: a candidate is taken while its score 100 - load is above -1. */
  function Capacity(n: nat, load: nat): nat {
    if load < 101 then (101 - load) * n else 0
  }

  lemma OneSelection(cs: seq<Candidate>, q: Query, load: nat, k: nat, best: int)
    requires q.policy.RoundRobin? && Dealt(cs, load, k) && k < Capacity(|cs|, load)
    requires IsBest(cs, q, best)
    ensures best == k % |cs| && Dealt(Given(cs, best), load, k + 1)
  {
    var n := |cs|;
    NextInRow(k, n);
    assert k / n < 101 - load by {
      Quotient(k, n);
      if k / n >= 101 - load { Multiply(101 - load, k / n, n); }
    }
    assert Eligible(cs, q, k % n);
  }

  lemma NoSelection(cs: seq<Candidate>, q: Query, load: nat, best: int)
    requires q.policy.RoundRobin? && Dealt(cs, load, Capacity(|cs|, load))
    requires IsBest(cs, q, best)
    ensures best == -1
  {
    var n := |cs|;
    if load < 101 {
      QuotientIs(Capacity(n, load), n, 101 - load);
    }
    forall i | 0 <= i < n ensures !Eligible(cs, q, i) {}
  }

  function Reached(n: nat, load: nat, k: nat): nat {
    if k < Capacity(n, load) then k else Capacity(n, load)
  }

  lemma AnySelection(cs: seq<Candidate>, q: Query, load: nat, k: nat, best: int)
    requires q.policy.RoundRobin? && Dealt(cs, load, Reached(|cs|, load, k)) && IsBest(cs, q, best)
    ensures |Given(cs, best)| == |cs|
    ensures Dealt(Given(cs, best), load, Reached(|cs|, load, k + 1))
    ensures best == if k < Capacity(|cs|, load) then k % |cs| else -1
  {
    if k < Capacity(|cs|, load) {
      OneSelection(cs, q, load, k, best);
    } else {
      NoSelection(cs, q, load, best);
    }
  }

  /** From equal loads, repeated round-robin selection deals the tasks out like
      cards: the k-th goes to candidate k mod n, every load is floor(k/n) or
      ceil(k/n) above the start, and selection fails exactly from the moment
      every load has reached 101. */
  lemma {:induction false} GreedyBalance(states: seq<seq<Candidate>>, picks: seq<int>, q: Query, load: nat, k: nat)
    requires |states| == |picks| + 1 && k < |states|
    requires q.policy.RoundRobin? && Dealt(states[0], load, 0)
    requires forall j :: 0 <= j < |picks| ==>
      IsBest(states[j], q, picks[j]) && states[j + 1] == Given(states[j], picks[j])
    ensures var n := |states[0]|;
      && |states[k]| == n > 0
      && Dealt(states[k], load, Reached(n, load, k))
      && (k < |picks| ==> picks[k] == if k < Capacity(n, load) then k % n else -1)
    decreases k
  {
    if k > 0 {
      GreedyBalance(states, picks, q, load, k - 1);
      AnySelection(states[k - 1], q, load, k - 1, picks[k - 1]);
    }
    if k < |picks| {
      AnySelection(states[k], q, load, k, picks[k]);
    }
  }

  /** So no two loads ever differ by more than one. */
  lemma SharesWithinOne(n: nat, load: nat, k: nat, i: nat, j: nat)
    requires i < n && j < n
    ensures Share(n, load, k, i) <= Share(n, load, k, j) + 1
    ensures load + k / n <= Share(n, load, k, i) <= load + (k + n - 1) / n
  {
    Quotient(k, n);
    assert k == k / n * n + k % n;
    Successor(k / n, n);
    if k % n == 0 { QuotientIs(k + n - 1, n, k / n); } else { QuotientIs(k + n - 1, n, k / n + 1); }
  }
}
