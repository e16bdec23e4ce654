/**
 Concurrent workers on the shared table. Each worker takes the advisory locks of its buckets in
 sorted bucket order, reads its rows once all are held, and commits its writes and releases every
 lock in one step.
 */
module WindowLocks {
  import opened Prelude
  import opened WindowStore
  import opened WindowTheorems
  import opened Intervals
  import Text

  /** Tuple order on (scope, key), as `sorted` uses it. */
  predicate Below(a: Bucket, b: Bucket) {
    Text.Less(a.scope, b.scope) || (a.scope == b.scope && Text.Less(a.key, b.key))
  }

  ghost predicate Ascending(plan: seq<Bucket>) {
    forall i, j :: 0 <= i < j < |plan| ==> Below(plan[i], plan[j])
  }

  /** `sorted({(c.scope, c.key) for c in checks})` */
  ghost predicate IsLockPlan(plan: seq<Bucket>, checks: seq<WindowCheck>) {
    && Ascending(plan)
    && (forall i :: 0 <= i < |checks| ==> checks[i].bucket in plan)
    && (forall b :: b in plan ==> Names(checks, b))
  }

  datatype Phase =
    | Locking(held: nat)                  // the first `held` buckets of the plan are locked
    | Reading(done: nat, seen: Hits)      // every lock is held; the first `done` checks are read
    | Finished

  datatype Worker = Worker(checks: seq<WindowCheck>, now: int, plan: seq<Bucket>, phase: Phase)

  datatype Commit = Commit(request: Request, verdict: Verdict)

  /** `lockId` is the database's hash of a bucket to an advisory lock number. */
  datatype System = System(lockId: Bucket -> int, workers: seq<Worker>, table: Hits, log: seq<Commit>)

  // ---------------------------------------------------------------------------------------------
  // Steps
  // ---------------------------------------------------------------------------------------------

  function HeldCount(w: Worker): nat {
    match w.phase
    case Locking(held) => held
    case Reading(_, _) => |w.plan|
    case Finished => 0
  }

  ghost predicate Holds(s: System, w: Worker, id: int) {
    exists q :: 0 <= q < HeldCount(w) <= |w.plan| && s.lockId(w.plan[q]) == id
  }

  ghost predicate Free(s: System, i: nat, id: int) {
    forall j :: 0 <= j < |s.workers| && j != i ==> !Holds(s, s.workers[j], id)
  }

  /** The rows a worker read, trimmed to its windows: the snapshot its decision rests on. */
  function Outcome(table: Hits, w: Worker): (Hits, Verdict)
    requires LimitsArePositive(w.checks) && w.phase.Reading?
  {
    Settle(table, LiveRows(w.phase.seen, w.checks, w.now), w.checks, w.now)
  }

  /** What worker `i` does next, if nothing blocks it. */
  ghost function Advance(s: System, i: nat): Option<System>
    requires i < |s.workers| && LimitsArePositive(s.workers[i].checks)
  {
    var w := s.workers[i];
    match w.phase
    case Locking(held) =>
      if held < |w.plan| then
        if Free(s, i, s.lockId(w.plan[held])) then
          Some(s.(workers := s.workers[i := w.(phase := Locking(held + 1))]))
        else None
      else Some(s.(workers := s.workers[i := w.(phase := Reading(0, map[]))]))
    case Reading(done, seen) =>
      if done < |w.checks| then
        var b := w.checks[done].bucket;
        Some(s.(workers := s.workers[i := w.(phase := Reading(done + 1, seen[b := Get(s.table, b)]))]))
      else
        var (table, verdict) := Outcome(s.table, w);
        Some(s.(workers := s.workers[i := w.(phase := Finished)], table := table,
                log := s.log + [Commit(Request(w.checks, w.now), verdict)]))
    case Finished => None
  }

  /** A worker's transaction may also roll back at any point; its locks go with it. */
  function Abort(s: System, i: nat): System
    requires i < |s.workers|
  {
    s.(workers := s.workers[i := s.workers[i].(phase := Finished)])
  }

  ghost predicate Next(s: System, s': System) {
    exists i: nat :: i < |s.workers| && LimitsArePositive(s.workers[i].checks)
      && (Advance(s, i) == Some(s') || s' == Abort(s, i))
  }

  ghost predicate Initial(s: System) {
    && s.table == map[] && s.log == []
    && (forall i :: 0 <= i < |s.workers| ==>
          && s.workers[i].phase == Locking(0)
          && LimitsArePositive(s.workers[i].checks)
          && Distinct(s.workers[i].checks)
          && IsLockPlan(s.workers[i].plan, s.workers[i].checks))
  }

  ghost predicate IsRun(states: seq<System>) {
    && states != [] && Initial(states[0])
    && (forall k :: 0 <= k < |states| - 1 ==> Next(states[k], states[k + 1]))
  }

  // ---------------------------------------------------------------------------------------------
  // What every reachable state keeps
  // ---------------------------------------------------------------------------------------------

  function Requests(log: seq<Commit>): (r: seq<Request>)
    ensures |r| == |log|
  {
    seq(|log|, i requires 0 <= i < |log| => log[i].request)
  }

  function Verdicts(log: seq<Commit>): (r: seq<Verdict>)
    ensures |r| == |log|
  {
    seq(|log|, i requires 0 <= i < |log| => log[i].verdict)
  }

  ghost predicate WorkerOk(w: Worker) {
    && LimitsArePositive(w.checks) && Distinct(w.checks) && IsLockPlan(w.plan, w.checks)
    && HeldCount(w) <= |w.plan|
    && (w.phase.Reading? ==> w.phase.done <= |w.checks|)
  }

  /** No lock number is ever held by two transactions. */
  ghost predicate Exclusive(s: System) {
    forall i, j, id :: 0 <= i < j < |s.workers| && Holds(s, s.workers[i], id) ==> !Holds(s, s.workers[j], id)
  }

  /** Every row a reader has seen is still what the table holds. */
  ghost predicate Current(w: Worker, table: Hits) {
    w.phase.Reading? && w.phase.done <= |w.checks| ==>
      && (forall k :: 0 <= k < w.phase.done ==>
            w.checks[k].bucket in w.phase.seen && w.phase.seen[w.checks[k].bucket] == Get(table, w.checks[k].bucket))
      && (forall b :: b in w.phase.seen ==> Names(w.checks, b))
  }

  ghost predicate Serial(s: System) {
    && Runnable(Requests(s.log))
    && Run(Table, Requests(s.log)) == (s.table, Verdicts(s.log))
  }

  ghost predicate Inv(s: System) {
    && (forall i :: 0 <= i < |s.workers| ==> WorkerOk(s.workers[i]))
    && (forall i :: 0 <= i < |s.workers| ==> Current(s.workers[i], s.table))
    && Exclusive(s)
    && Serial(s)
  }

  /** Taking a lock that nobody else holds, or letting locks go, keeps them exclusive. */
  lemma ExclusiveKept(s: System, s': System, i: nat)
    requires Exclusive(s) && i < |s.workers| && s'.lockId == s.lockId
    requires |s'.workers| == |s.workers| && forall j :: 0 <= j < |s.workers| && j != i ==> s'.workers[j] == s.workers[j]
    requires forall id :: Holds(s', s'.workers[i], id) ==> Holds(s, s.workers[i], id) || Free(s, i, id)
    ensures Exclusive(s')
  {
    forall a, b, id | 0 <= a < b < |s'.workers| && Holds(s', s'.workers[a], id)
      ensures !Holds(s', s'.workers[b], id)
    {
      if a != i { assert Holds(s, s.workers[a], id); }
      if b != i { assert Holds(s', s'.workers[b], id) <==> Holds(s, s.workers[b], id); }
    }
  }

  lemma {:induction false} LiveRowsAgree(seen: Hits, table: Hits, checks: seq<WindowCheck>, now: int)
    requires forall k :: 0 <= k < |checks| ==> Get(seen, checks[k].bucket) == Get(table, checks[k].bucket)
    ensures LiveRows(seen, checks, now) == LiveRows(table, checks, now)
  {
    if checks != [] {
      LiveRowsAgree(seen, table, checks[..|checks| - 1], now);
    }
  }

  /** A reader's snapshot stands in for the table itself when it decides. */
  lemma OutcomeIsTableStep(s: System, i: nat)
    requires Inv(s) && i < |s.workers|
    requires s.workers[i].phase.Reading? && s.workers[i].phase.done == |s.workers[i].checks|
    ensures Outcome(s.table, s.workers[i]) == TableStep(s.table, s.workers[i].checks, s.workers[i].now)
  {
    var w := s.workers[i];
    assert Current(w, s.table) && WorkerOk(w);
    LiveRowsAgree(w.phase.seen, s.table, w.checks, w.now);
  }

  lemma ReaderHolds(s: System, w: Worker, b: Bucket)
    requires WorkerOk(w) && w.phase.Reading? && Names(w.checks, b)
    ensures Holds(s, w, s.lockId(b))
  {
    var k :| 0 <= k < |w.checks| && w.checks[k].bucket == b;
    assert b in w.plan;
    var q :| 0 <= q < |w.plan| && w.plan[q] == b;
  }

  /** Another worker's commit cannot touch a row that a reader has seen: it would have needed the reader's lock. */
  lemma CommitKeepsCurrent(s: System, i: nat, j: nat)
    requires Inv(s) && i < |s.workers| && j < |s.workers| && i != j
    requires s.workers[i].phase.Reading?
    ensures Current(s.workers[j], Outcome(s.table, s.workers[i]).0)
  {
    var w, v := s.workers[i], s.workers[j];
    assert WorkerOk(w) && WorkerOk(v) && Current(v, s.table);
    var live := LiveRows(w.phase.seen, w.checks, w.now);
    if v.phase.Reading? {
      forall k | 0 <= k < v.phase.done
        ensures Get(Outcome(s.table, w).0, v.checks[k].bucket) == Get(s.table, v.checks[k].bucket)
      {
        var b := v.checks[k].bucket;
        WriteRowsAt(s.table, live, w.checks, w.now, b);
        if Names(w.checks, b) {
          ReaderHolds(s, w, b);
          ReaderHolds(s, v, b);
          assert false;
        }
      }
    }
  }

  lemma CommitKeepsSerial(s: System, i: nat, s': System)
    requires Inv(s) && i < |s.workers| && Advance(s, i) == Some(s')
    requires s.workers[i].phase.Reading? && s.workers[i].phase.done == |s.workers[i].checks|
    ensures Serial(s')
  {
    OutcomeIsTableStep(s, i);
    var n := |s.log|;
    assert Requests(s'.log)[..n] == Requests(s.log);
    assert Verdicts(s'.log) == Verdicts(s.log) + [Outcome(s.table, s.workers[i]).1];
  }

  /** One worker's move: its own next phase, and a table that changes only when it commits. */
  lemma AdvanceKeepsInv(s: System, i: nat, s': System)
    requires Inv(s) && i < |s.workers| && Advance(s, i) == Some(s')
    ensures Inv(s')
  {
    var w, w' := s.workers[i], s'.workers[i];
    assert WorkerOk(w) && Current(w, s.table);
    forall id | Holds(s', w', id) ensures Holds(s, w, id) || Free(s, i, id) {
      var q :| 0 <= q < HeldCount(w') && s.lockId(w.plan[q]) == id;
      if q < HeldCount(w) {}
    }
    ExclusiveKept(s, s', i);
    var commits := w.phase.Reading? && w.phase.done == |w.checks|;
    forall j | 0 <= j < |s'.workers| ensures WorkerOk(s'.workers[j]) && Current(s'.workers[j], s'.table) {
      assert WorkerOk(s.workers[j]) && Current(s.workers[j], s.table);
      if j != i && commits {
        CommitKeepsCurrent(s, i, j);
      } else if j == i && w'.phase.Reading? && w.phase.Reading? {
        ReadKeepsCurrent(w, w', s.table);
      }
    }
    if commits {
      CommitKeepsSerial(s, i, s');
    }
  }

  lemma ReadKeepsCurrent(w: Worker, w': Worker, table: Hits)
    requires w.phase.Reading? && w.phase.done < |w.checks| && Current(w, table)
    requires var b := w.checks[w.phase.done].bucket;
      w' == w.(phase := Reading(w.phase.done + 1, w.phase.seen[b := Get(table, b)]))
    ensures Current(w', table)
  {
  }

  lemma AbortKeepsInv(s: System, i: nat)
    requires Inv(s) && i < |s.workers|
    ensures Inv(Abort(s, i))
  {
    var s' := Abort(s, i);
    ExclusiveKept(s, s', i);
    forall j | 0 <= j < |s'.workers| ensures WorkerOk(s'.workers[j]) && Current(s'.workers[j], s'.table) {
      assert WorkerOk(s.workers[j]) && Current(s.workers[j], s.table);
    }
  }

  lemma {:induction false} RunKeepsInv(states: seq<System>)
    requires IsRun(states)
    ensures Inv(states[|states| - 1])
    ensures states[|states| - 1].lockId == states[0].lockId
  {
    var n := |states| - 1;
    if n > 0 {
      assert IsRun(states[..n]) by {
        forall k | 0 <= k < n - 1 ensures Next(states[..n][k], states[..n][k + 1]) {
          assert Next(states[k], states[k + 1]);
        }
      }
      RunKeepsInv(states[..n]);
      var s, s' := states[n - 1], states[n];
      assert Next(states[n - 1], states[n - 1 + 1]);
      var i: nat :| i < |s.workers| && LimitsArePositive(s.workers[i].checks)
        && (Advance(s, i) == Some(s') || s' == Abort(s, i));
      if s' == Abort(s, i) {
        AbortKeepsInv(s, i);
      } else {
        AdvanceKeepsInv(s, i, s');
      }
    } else {
      var s := states[0];
      assert Requests(s.log) == [] && Verdicts(s.log) == [];
    }
  }

  /**
   Serializability: in every reachable state the committed table and every verdict given so far are
   those of running the committed batches one at a time in commit order.
   */
  lemma EveryRunIsSerial(states: seq<System>)
    requires IsRun(states)
    ensures var end := states[|states| - 1];
      Runnable(Requests(end.log)) && Run(Table, Requests(end.log)) == (end.table, Verdicts(end.log))
  {
    RunKeepsInv(states);
  }

  /**
   The deployment-wide promise: any number of interleaved workers answer as one process-local store
   would, and never accept more than `limit` hits of a bucket in any closed interval of its window.
   */
  lemma {:induction false} WorkersShareOneWindow(states: seq<System>, policy: Policy, b: Bucket, from: int)
    requires IsRun(states) && Orderly(Requests(states[|states| - 1].log), policy)
    ensures var log := states[|states| - 1].log;
      && Runnable(Requests(log))
      && Verdicts(log) == Run(Memory, Requests(log)).1
      && Crowd(AcceptedAt(Requests(log), Verdicts(log), b), from, policy(b).window) <= policy(b).limit
  {
    EveryRunIsSerial(states);
    var reqs := Requests(states[|states| - 1].log);
    StoresAgree(reqs, policy);
    CapHoldsOverEveryRun(Table, reqs, policy, b, from);
  }

  // ---------------------------------------------------------------------------------------------
  // Deadlock freedom
  // ---------------------------------------------------------------------------------------------

  /** None of the buckets sorts strictly between two of them that collide unless it collides with them too. */
  ghost predicate ConvexAmong(lockId: Bucket -> int, used: set<Bucket>) {
    forall a, b, c :: a in used && b in used && c in used && Below(a, b) && Below(b, c) && lockId(a) == lockId(c) ==>
      lockId(b) == lockId(a)
  }

  ghost predicate PlansIn(s: System, used: set<Bucket>) {
    forall i, b :: 0 <= i < |s.workers| && b in s.workers[i].plan ==> b in used
  }

  ghost predicate Unfinished(s: System, i: nat) {
    i < |s.workers| && !s.workers[i].phase.Finished?
  }

  ghost predicate CanStep(s: System, i: nat) {
    i < |s.workers| && LimitsArePositive(s.workers[i].checks) && Advance(s, i).Some?
  }

  ghost predicate Deadlocked(s: System) {
    (exists i :: Unfinished(s, i)) && forall i :: !CanStep(s, i)
  }

  /** However many workers start with whatever batches of these buckets, no interleaving of them can deadlock. */
  ghost predicate DeadlockFreeAmong(lockId: Bucket -> int, used: set<Bucket>) {
    forall states: seq<System> :: IsRun(states) && states[0].lockId == lockId && PlansIn(states[0], used) ==>
      !Deadlocked(states[|states| - 1])
  }

  /** A worker's plan never changes, so a run stays among the buckets it started with. */
  lemma {:induction false} RunKeepsPlans(states: seq<System>, used: set<Bucket>)
    requires IsRun(states) && PlansIn(states[0], used)
    ensures PlansIn(states[|states| - 1], used)
  {
    var n := |states| - 1;
    if n > 0 {
      assert IsRun(states[..n]) by {
        forall k | 0 <= k < n - 1 ensures Next(states[..n][k], states[..n][k + 1]) {
          assert Next(states[k], states[k + 1]);
        }
      }
      RunKeepsPlans(states[..n], used);
      var s, s' := states[n - 1], states[n];
      assert Next(states[n - 1], states[n - 1 + 1]);
      forall i, b | 0 <= i < |s'.workers| && b in s'.workers[i].plan ensures b in used {
        assert s'.workers[i].plan == s.workers[i].plan;
      }
    }
  }

  lemma BelowIsTotal(a: Bucket, b: Bucket)
    ensures a == b || Below(a, b) || Below(b, a)
  {
    Text.LessIsTotal(a.scope, b.scope);
    Text.LessIsTotal(a.key, b.key);
  }

  lemma BelowIsTransitive(a: Bucket, b: Bucket, c: Bucket)
    requires Below(a, b) && Below(b, c)
    ensures Below(a, c)
  {
    if Text.Less(a.scope, b.scope) && Text.Less(b.scope, c.scope) {
      Text.LessIsTransitive(a.scope, b.scope, c.scope);
    } else if a.scope == b.scope && b.scope == c.scope {
      Text.LessIsTransitive(a.key, b.key, c.key);
    }
  }

  lemma BelowIsIrreflexive(a: Bucket)
    ensures !Below(a, a)
  {
    if Text.Less(a.scope, a.scope) { Text.LessIsAsymmetric(a.scope, a.scope); }
    if Text.Less(a.key, a.key) { Text.LessIsAsymmetric(a.key, a.key); }
  }

  ghost predicate Stuck(s: System) {
    Inv(s) && forall i :: !CanStep(s, i)
  }

  /** What a stuck, unfinished worker waits for. */
  ghost function WaitsFor(s: System, i: nat): (b: Bucket)
    requires Stuck(s) && Unfinished(s, i)
    ensures s.workers[i].phase.Locking? && HeldCount(s.workers[i]) < |s.workers[i].plan|
    ensures b == s.workers[i].plan[HeldCount(s.workers[i])] && !Free(s, i, s.lockId(b))
  {
    var w := s.workers[i];
    assert WorkerOk(w) && !CanStep(s, i);
    w.plan[HeldCount(w)]
  }

  /** A stuck worker is blocked by another stuck worker, and that one waits for a bucket further up the order. */
  lemma BlockerWaitsHigher(s: System, used: set<Bucket>, i: nat) returns (j: nat)
    requires Stuck(s) && Unfinished(s, i) && ConvexAmong(s.lockId, used) && PlansIn(s, used)
    ensures Unfinished(s, j) && Below(WaitsFor(s, i), WaitsFor(s, j))
  {
    var b := WaitsFor(s, i);
    j :| 0 <= j < |s.workers| && j != i && Holds(s, s.workers[j], s.lockId(b));
    var v := s.workers[j];
    var q :| 0 <= q < HeldCount(v) && s.lockId(v.plan[q]) == s.lockId(b);
    var c := WaitsFor(s, j);
    assert WorkerOk(v);
    assert Below(v.plan[q], c);
    assert b in s.workers[i].plan && v.plan[q] in v.plan && c in v.plan;
    OwnLockIsFree(s, j, q, c);
    BelowIsTotal(b, c);
  }

  /** Advisory locks are re-entrant: a lock number the worker holds already is free to it. */
  lemma OwnLockIsFree(s: System, j: nat, q: nat, c: Bucket)
    requires Inv(s) && j < |s.workers| && q < HeldCount(s.workers[j]) <= |s.workers[j].plan|
    ensures s.lockId(s.workers[j].plan[q]) == s.lockId(c) ==> Free(s, j, s.lockId(c))
  {
    var id := s.lockId(s.workers[j].plan[q]);
    assert Holds(s, s.workers[j], id);
    forall k | 0 <= k < |s.workers| && k != j ensures !Holds(s, s.workers[k], id) {
      assert Exclusive(s);
    }
  }

  lemma {:induction false} HighestWaiter(s: System, n: nat, first: nat) returns (top: nat)
    requires Stuck(s) && first < n <= |s.workers| && Unfinished(s, first)
    ensures Unfinished(s, top)
    ensures forall i :: 0 <= i < n && Unfinished(s, i) ==> !Below(WaitsFor(s, top), WaitsFor(s, i))
    decreases n
  {
    var last := n - 1;
    if exists i: nat :: i < last && Unfinished(s, i) {
      var i: nat :| i < last && Unfinished(s, i);
      top := HighestWaiter(s, last, i);
      if Unfinished(s, last) && Below(WaitsFor(s, top), WaitsFor(s, last)) {
        forall k | 0 <= k < n && Unfinished(s, k) ensures !Below(WaitsFor(s, last), WaitsFor(s, k)) {
          if Below(WaitsFor(s, last), WaitsFor(s, k)) {
            if k < last {
              BelowIsTransitive(WaitsFor(s, top), WaitsFor(s, last), WaitsFor(s, k));
            } else {
              BelowIsIrreflexive(WaitsFor(s, last));
            }
          }
        }
        top := last;
      }
    } else {
      top := first;
      BelowIsIrreflexive(WaitsFor(s, top));
    }
  }

  /** While the buckets that the workers name collide convexly, someone can move. */
  lemma NoDeadlock(s: System, used: set<Bucket>, first: nat)
    requires Inv(s) && ConvexAmong(s.lockId, used) && PlansIn(s, used) && Unfinished(s, first)
    ensures exists i :: CanStep(s, i)
  {
    if Stuck(s) {
      var top := HighestWaiter(s, |s.workers|, first);
      var above := BlockerWaitsHigher(s, used, top);
      assert false;
    }
  }

  lemma ConvexCollisionsAreDeadlockFree(lockId: Bucket -> int, used: set<Bucket>)
    requires ConvexAmong(lockId, used)
    ensures DeadlockFreeAmong(lockId, used)
  {
    forall states: seq<System> | IsRun(states) && states[0].lockId == lockId && PlansIn(states[0], used)
      ensures !Deadlocked(states[|states| - 1])
    {
      RunKeepsInv(states);
      RunKeepsPlans(states, used);
      var end := states[|states| - 1];
      if i :| Unfinished(end, i) {
        NoDeadlock(end, used, i);
      }
    }
  }

  /** Two workers whose plans are `x` then `y` and `u` then `v`, each with so many locks taken. */
  function Crossed(
    lockId: Bucket -> int, x: Bucket, y: Bucket, u: Bucket, v: Bucket, one: seq<WindowCheck>, two: seq<WindowCheck>,
    left: nat, right: nat): System
  {
    System(lockId, [Worker(one, 0, [x, y], Locking(left)), Worker(two, 0, [u, v], Locking(right))], map[], [])
  }

  /** Each worker's second bucket has the lock number of the other's first: both take their first lock, and that is it. */
  lemma CrossedRun(
    lockId: Bucket -> int, x: Bucket, y: Bucket, u: Bucket, v: Bucket, one: seq<WindowCheck>, two: seq<WindowCheck>)
    requires LimitsArePositive(one) && Distinct(one) && IsLockPlan([x, y], one)
    requires LimitsArePositive(two) && Distinct(two) && IsLockPlan([u, v], two)
    requires lockId(y) == lockId(u) && lockId(v) == lockId(x) && lockId(x) != lockId(u)
    ensures IsRun([Crossed(lockId, x, y, u, v, one, two, 0, 0), Crossed(lockId, x, y, u, v, one, two, 1, 0),
                   Crossed(lockId, x, y, u, v, one, two, 1, 1)])
    ensures Deadlocked(Crossed(lockId, x, y, u, v, one, two, 1, 1))
  {
    var s0, s1 := Crossed(lockId, x, y, u, v, one, two, 0, 0), Crossed(lockId, x, y, u, v, one, two, 1, 0);
    var s2 := Crossed(lockId, x, y, u, v, one, two, 1, 1);
    assert Advance(s0, 0) == Some(s1) by {
      assert Free(s0, 0, lockId(x));
      assert s0.workers[0 := s1.workers[0]] == s1.workers;
    }
    assert Advance(s1, 1) == Some(s2) by {
      assert Free(s1, 1, lockId(u));
      assert s1.workers[1 := s2.workers[1]] == s2.workers;
    }
    assert Next(s0, s1) && Next(s1, s2);
    assert Initial(s0);
    var states := [s0, s1, s2];
    forall k | 0 <= k < |states| - 1 ensures Next(states[k], states[k + 1]) {
      if k == 0 {} else { assert k == 1; }
    }
    assert Holds(s2, s2.workers[0], lockId(x)) by { assert s2.workers[0].plan[0] == x; }
    assert Holds(s2, s2.workers[1], lockId(u)) by { assert s2.workers[1].plan[0] == u; }
    assert !Free(s2, 0, lockId(y)) && !Free(s2, 1, lockId(v));
    assert !CanStep(s2, 0) && !CanStep(s2, 1);
    assert Unfinished(s2, 0);
  }

  /** Under these lock numbers, some run of two workers with these batches deadlocks. */
  ghost predicate CanDeadlock(lockId: Bucket -> int, one: seq<WindowCheck>, two: seq<WindowCheck>) {
    exists states: seq<System> :: IsRun(states) && Deadlocked(states[|states| - 1])
      && states[0].lockId == lockId && Batches(states[0]) == [one, two]
  }

  function Batches(s: System): (r: seq<seq<WindowCheck>>)
    ensures |r| == |s.workers|
  {
    seq(|s.workers|, i requires 0 <= i < |s.workers| => s.workers[i].checks)
  }

  lemma CrossedBatchesDeadlock(
    lockId: Bucket -> int, x: Bucket, y: Bucket, u: Bucket, v: Bucket, one: seq<WindowCheck>, two: seq<WindowCheck>)
    requires LimitsArePositive(one) && Distinct(one) && IsLockPlan([x, y], one)
    requires LimitsArePositive(two) && Distinct(two) && IsLockPlan([u, v], two)
    requires lockId(y) == lockId(u) && lockId(v) == lockId(x) && lockId(x) != lockId(u)
    ensures CanDeadlock(lockId, one, two)
  {
    CrossedRun(lockId, x, y, u, v, one, two);
    var states := [Crossed(lockId, x, y, u, v, one, two, 0, 0), Crossed(lockId, x, y, u, v, one, two, 1, 0),
                   Crossed(lockId, x, y, u, v, one, two, 1, 1)];
    assert states[|states| - 1] == Crossed(lockId, x, y, u, v, one, two, 1, 1);
    assert Batches(states[0]) == [one, two];
  }

  function PairBatch(x: Bucket, y: Bucket): seq<WindowCheck> {
    [WindowCheck(x, 1, 60), WindowCheck(y, 1, 60)]
  }

  /** Two checks in either order have the same lock plan: their buckets, the lower one first. */
  lemma PairPlan(x: Bucket, y: Bucket, checks: seq<WindowCheck>)
    requires Below(x, y) && |checks| == 2
    requires (checks[0].bucket, checks[1].bucket) == (x, y) || (checks[0].bucket, checks[1].bucket) == (y, x)
    ensures Distinct(checks) && IsLockPlan([x, y], checks)
  {
    BelowIsIrreflexive(x);
    assert Names(checks, checks[0].bucket) && Names(checks, checks[1].bucket);
    assert [x, y][0] == x && [x, y][1] == y;
  }

  /**
   Sorting alone does not rule deadlock out: the workers sort buckets but wait on hashes. Batches of any given buckets
   are deadlock-free exactly when, among those buckets, every set of colliding ones is contiguous in the sort order.
   */
  lemma DeadlockFreeIffCollisionsAreConvex(lockId: Bucket -> int, used: set<Bucket>)
    ensures DeadlockFreeAmong(lockId, used) <==> ConvexAmong(lockId, used)
  {
    if ConvexAmong(lockId, used) {
      ConvexCollisionsAreDeadlockFree(lockId, used);
    } else {
      var a, b, c :| a in used && b in used && c in used
        && Below(a, b) && Below(b, c) && lockId(a) == lockId(c) && lockId(b) != lockId(a);
      var one, two := PairBatch(a, b), PairBatch(b, c);
      PairPlan(a, b, one);
      PairPlan(b, c, two);
      CrossedRun(lockId, a, b, b, c, one, two);
      var states := [Crossed(lockId, a, b, b, c, one, two, 0, 0), Crossed(lockId, a, b, b, c, one, two, 1, 0),
                     Crossed(lockId, a, b, b, c, one, two, 1, 1)];
      assert PlansIn(states[0], used);
      assert states[|states| - 1] == Crossed(lockId, a, b, b, c, one, two, 1, 1);
    }
  }

  /** Buckets with lock numbers of their own are always safe, whatever the hash does to others. */
  lemma DistinctLocksAreDeadlockFree(lockId: Bucket -> int, used: set<Bucket>)
    requires forall a, b :: a in used && b in used && lockId(a) == lockId(b) ==> a == b
    ensures DeadlockFreeAmong(lockId, used)
  {
    forall a, b, c | a in used && b in used && c in used && Below(a, b) && Below(b, c) ensures lockId(a) != lockId(c) {
      BelowIsTransitive(a, b, c);
      BelowIsIrreflexive(a);
    }
    ConvexCollisionsAreDeadlockFree(lockId, used);
  }

  function BucketsOf(s: System): set<Bucket> {
    set i, b | 0 <= i < |s.workers| && b in s.workers[i].plan :: b
  }

  /** What that comes to for one run: it cannot deadlock if the buckets it started with collide convexly. */
  lemma RunDeadlocksOnlyOnCrossing(states: seq<System>)
    requires IsRun(states) && Deadlocked(states[|states| - 1])
    ensures !ConvexAmong(states[0].lockId, BucketsOf(states[0]))
  {
    if ConvexAmong(states[0].lockId, BucketsOf(states[0])) {
      ConvexCollisionsAreDeadlockFree(states[0].lockId, BucketsOf(states[0]));
    }
  }
}
