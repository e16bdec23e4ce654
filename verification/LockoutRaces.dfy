/**
 Attempts that overlap: every check that passes puts an attempt in flight, and its failure lands later.
 How many failures a window can then hold, and why only attempts made singly keep to the limit.
 */
module LockoutRaces {
  import opened Prelude
  import opened Intervals
  import opened Lockouts

  /** An attempt arrives and is checked; the i-th attempt in flight fails, succeeds, or ends without a record. */
  datatype Move<K> = Arrive(keys: seq<K>, now: int) | Fall(i: nat, now: int) | Win(i: nat, now: int) | Leave(i: nat)

  /** The throttle's events so far, and the keys of each attempt in flight. */
  datatype Race<K> = Race(events: seq<Event<K>>, inFlight: seq<seq<K>>)

  function Without<T>(s: seq<T>, i: nat): seq<T>
    requires i < |s|
  {
    s[..i] + s[i + 1..]
  }

  function Take<K(==)>(rule: Rule, r: Race<K>, move: Move<K>): Race<K> {
    match move
    case Arrive(keys, now) =>
      var passed := Check(After(rule, r.events), keys, now).1.None?;
      Race(r.events + [Event(Checked, keys, now)], if passed then r.inFlight + [keys] else r.inFlight)
    case Fall(i, now) =>
      if i < |r.inFlight| then Race(r.events + [Event(Failed, r.inFlight[i], now)], Without(r.inFlight, i)) else r
    case Win(i, now) =>
      if i < |r.inFlight| then Race(r.events + [Event(Succeeded, r.inFlight[i], now)], Without(r.inFlight, i)) else r
    case Leave(i) => if i < |r.inFlight| then r.(inFlight := Without(r.inFlight, i)) else r
  }

  function Play<K(==)>(rule: Rule, moves: seq<Move<K>>): Race<K> {
    if moves == [] then Race([], []) else Take(rule, Play(rule, moves[..|moves| - 1]), moves[|moves| - 1])
  }

  /** How many attempts in flight name `k`. */
  function InFlight<K(==)>(attempts: seq<seq<K>>, k: K): nat {
    if attempts == [] then 0
    else InFlight(attempts[..|attempts| - 1], k) + if k in attempts[|attempts| - 1] then 1 else 0
  }

  /** At no time are more than `most` attempts on `k` in flight. */
  ghost predicate AtMost<K>(rule: Rule, moves: seq<Move<K>>, k: K, most: nat) {
    && InFlight(Play(rule, moves).inFlight, k) <= most
    && (moves != [] ==> AtMost(rule, moves[..|moves| - 1], k, most))
  }

  /** Clocks do not run backwards, and no success resets `k`. */
  ghost predicate Fair<K(!new)>(rule: Rule, moves: seq<Move<K>>, k: K) {
    WellTimed(Play(rule, moves).events) && NeverReset(Play(rule, moves).events, k)
  }

  ghost predicate NeverReset<K>(events: seq<Event<K>>, k: K) {
    forall i :: 0 <= i < |events| ==> !(events[i].kind == Succeeded && k in events[i].keys)
  }

  /** At most `most` failures of `k` in any closed interval as long as the failure window. */
  ghost predicate FailuresAtMost<K>(rule: Rule, events: seq<Event<K>>, k: K, most: int) {
    forall from :: Crowd(FailTimes(events, k), from, rule.window) <= most
  }

  lemma {:induction false} InFlightWithout<K>(attempts: seq<seq<K>>, i: nat, k: K)
    requires i < |attempts|
    ensures InFlight(attempts, k) == InFlight(Without(attempts, i), k) + if k in attempts[i] then 1 else 0
  {
    var n, rest := |attempts| - 1, Without(attempts, i);
    if i == n {
      assert rest == attempts[..n];
    } else {
      InFlightWithout(attempts[..n], i, k);
      assert rest[..n - 1] == Without(attempts[..n], i);
      assert rest[n - 1] == attempts[n];
    }
  }

  // ---------------------------------------------------------------------------------------------
  // The ledger
  // ---------------------------------------------------------------------------------------------

  /** `limit + most - 1`: what a window can hold. */
  function Room(rule: Rule, most: nat): nat
    requires rule.limit >= 1
  {
    rule.limit + most - 1
  }

  /**
   The stored failures are the tail of all failures; what was dropped is old by now or by the end of the lockout;
   and the failures that still count, with those in flight, fit in the room.
   */
  ghost predicate Ledger(rule: Rule, most: nat, kept: seq<int>, lock: Option<int>, all: seq<int>, n: nat, now: int)
    requires rule.limit >= 1
  {
    && IsTail(kept, all) && |kept| < rule.limit && n <= most
    && Sorted(all) && AllUpTo(all, now) && Spaced(all, Room(rule, most), rule.window)
    && (Old(all, |all| - |kept|, rule.window, now) || (lock.Some? && Old(all, |all| - |kept|, rule.window, lock.value)))
    && (|all| + n >= Room(rule, most) ==> Old(all, |all| + n - Room(rule, most), rule.window, now))
  }

  lemma LaterLedger(rule: Rule, most: nat, kept: seq<int>, lock: Option<int>, lock': Option<int>, all: seq<int>, n: nat, last: int, now: int)
    requires rule.limit >= 1 && Ledger(rule, most, kept, lock, all, n, last) && last <= now
    requires lock' == lock || (lock.Some? && lock'.None? && lock.value <= now)
    ensures Ledger(rule, most, kept, lock', all, n, now)
  {
  }

  /** A check passes only without a lockout: then fewer than `limit` failures count, and one more attempt fits. */
  lemma ArrivalFits(rule: Rule, most: nat, kept: seq<int>, all: seq<int>, n: nat, now: int)
    requires rule.limit >= 1 && Ledger(rule, most, kept, None, all, n, now) && n + 1 <= most
    ensures Ledger(rule, most, kept, None, all, n + 1, now)
  {
  }

  lemma FewerInFlight(rule: Rule, most: nat, kept: seq<int>, lock: Option<int>, all: seq<int>, n: nat, fewer: nat, now: int)
    requires rule.limit >= 1 && Ledger(rule, most, kept, lock, all, n, now) && fewer <= n
    ensures Ledger(rule, most, kept, lock, all, fewer, now)
  {
  }

  /** Trimming drops only stamps that are old by now, so by any later time. */
  lemma TrimmedTail(kept: seq<int>, all: seq<int>, window: nat, now: int, t: int)
    requires IsTail(kept, all) && Old(all, |all| - |kept|, window, t) && now <= t
    ensures var live := TrimFront(kept, now - window);
      |live| <= |kept| && IsTail(live + [now], all + [now]) && Old(all + [now], |all| - |live|, window, t)
  {
    var drop := Stale(kept, now - window);
    TrimDropsStale(kept, now - window);
    var before := |all| - |kept|;
    assert kept[drop..] == all[before + drop..];
    forall j | 0 <= j < before + drop ensures all[j] + window < t {
      if j >= before { assert all[j] == kept[j - before]; }
    }
  }

  /** One more failure of an attempt in flight keeps the stamps spaced and uses up that attempt's share. */
  lemma FailureIsSpaced(rule: Rule, most: nat, kept: seq<int>, lock: Option<int>, all: seq<int>, n: nat, last: int, now: int)
    requires rule.limit >= 1 && Ledger(rule, most, kept, lock, all, n, last) && last <= now && n >= 1
    ensures Sorted(all + [now]) && AllUpTo(all + [now], now) && Spaced(all + [now], Room(rule, most), rule.window)
    ensures var more := all + [now];
      |more| + (n - 1) >= Room(rule, most) ==> Old(more, |more| + (n - 1) - Room(rule, most), rule.window, now)
  {
  }

  lemma {:induction false} FailureFits(rule: Rule, most: nat, kept: seq<int>, lock: Option<int>, all: seq<int>, n: nat, last: int, now: int)
    requires rule.limit >= 1 && rule.lockout > rule.window
    requires Ledger(rule, most, kept, lock, all, n, last) && last <= now && n >= 1
    ensures var bucket := TrimFront(kept, now - rule.window) + [now];
      if |bucket| >= rule.limit then Ledger(rule, most, [], Some(now + rule.lockout), all + [now], n - 1, now)
      else Ledger(rule, most, bucket, lock, all + [now], n - 1, now)
  {
    FailureIsSpaced(rule, most, kept, lock, all, n, last, now);
    var t := if Old(all, |all| - |kept|, rule.window, now) then now else lock.value;
    if t < now {
      TrimmedTail(kept, all, rule.window, now, now);
    } else {
      TrimmedTail(kept, all, rule.window, now, t);
    }
    assert Old(all + [now], |all| + 1, rule.window, now + rule.lockout);
  }

  // ---------------------------------------------------------------------------------------------
  // Every move keeps it
  // ---------------------------------------------------------------------------------------------

  ghost predicate LedgerAt<K>(rule: Rule, most: nat, s: State<K>, all: seq<int>, n: nat, k: K, now: int)
    requires rule.limit >= 1
  {
    Ledger(rule, most, Failures(s, k), LockOf(s, k), all, n, now)
  }

  ghost predicate LedgerOf<K>(rule: Rule, most: nat, r: Race<K>, k: K, now: int)
    requires rule.limit >= 1
  {
    LedgerAt(rule, most, After(rule, r.events), FailTimes(r.events, k), InFlight(r.inFlight, k), k, now)
  }

  lemma {:induction false} EventAppended<K>(rule: Rule, events: seq<Event<K>>, e: Event<K>, k: K)
    ensures After(rule, events + [e]) == Apply(rule, After(rule, events), e)
    ensures FailTimes(events + [e], k) ==
      if e.kind == Failed && k in e.keys then FailTimes(events, k) + [e.now] else FailTimes(events, k)
  {
    assert (events + [e])[..|events|] == events;
  }

  lemma {:induction false} ArrivalKeepsLedger<K>(rule: Rule, most: nat, s: State<K>, all: seq<int>, n: nat, keys: seq<K>, k: K, last: int, now: int)
    requires rule.limit >= 1 && LedgerAt(rule, most, s, all, n, k, last) && last <= now
    requires var joins := Check(s, keys, now).1.None? && k in keys; n + (if joins then 1 else 0) <= most
    ensures var joins := Check(s, keys, now).1.None? && k in keys;
      LedgerAt(rule, most, Check(s, keys, now).0, all, n + if joins then 1 else 0, k, now)
  {
    var after := Check(s, keys, now).0;
    CheckAt(s, keys, now, k);
    LaterLedger(rule, most, Failures(s, k), LockOf(s, k), LockOf(after, k), all, n, last, now);
    if Check(s, keys, now).1.None? && k in keys {
      ArrivalFits(rule, most, Failures(s, k), all, n, now);
    }
  }

  lemma {:induction false} FailureKeepsLedger<K(!new)>(rule: Rule, most: nat, s: State<K>, all: seq<int>, n: nat, keys: seq<K>, k: K, last: int, now: int)
    requires rule.limit >= 1 && rule.lockout > rule.window && NoRepeats(keys)
    requires LedgerAt(rule, most, s, all, n, k, last) && last <= now && k in keys && n >= 1
    ensures LedgerAt(rule, most, Fail(rule, s, keys, now), all + [now], n - 1, k, now)
  {
    var bucket, after := TrimFront(Failures(s, k), now - rule.window) + [now], Fail(rule, s, keys, now);
    FailAt(rule, s, keys, now, k);
    assert LockOf(after, k) == if |bucket| >= rule.limit then Some(now + rule.lockout) else LockOf(s, k);
    assert Failures(after, k) == if |bucket| >= rule.limit then [] else bucket;
    FailureFits(rule, most, Failures(s, k), LockOf(s, k), all, n, last, now);
  }

  lemma OthersKeepLedger<K(!new)>(rule: Rule, most: nat, s: State<K>, e: Event<K>, all: seq<int>, n: nat, k: K, last: int)
    requires rule.limit >= 1 && LedgerAt(rule, most, s, all, n, k, last) && last <= e.now && k !in e.keys
    ensures LedgerAt(rule, most, Apply(rule, s, e), all, n, k, e.now)
  {
    OtherEventAt(rule, s, e, k);
    LaterLedger(rule, most, Failures(s, k), LockOf(s, k), LockOf(Apply(rule, s, e), k), all, n, last, e.now);
  }

  /** What `Fair` asks of one move. */
  ghost predicate FairMove<K(!new)>(rule: Rule, r: Race<K>, move: Move<K>, k: K, last: int, now: int) {
    var next := Take(rule, r, move).events;
    if |next| <= |r.events| then now == last
    else
      var e := next[|next| - 1];
      last <= e.now == now && NoRepeats(e.keys) && !(e.kind == Succeeded && k in e.keys)
  }

  lemma ArriveKeeps<K(!new)>(rule: Rule, most: nat, r: Race<K>, keys: seq<K>, t: int, k: K, last: int)
    requires rule.limit >= 1 && LedgerOf(rule, most, r, k, last) && last <= t
    requires InFlight(Take(rule, r, Arrive(keys, t)).inFlight, k) <= most
    ensures LedgerOf(rule, most, Take(rule, r, Arrive(keys, t)), k, t)
  {
    EventAppended(rule, r.events, Event(Checked, keys, t), k);
    assert (r.inFlight + [keys])[..|r.inFlight|] == r.inFlight;
    ArrivalKeepsLedger(rule, most, After(rule, r.events), FailTimes(r.events, k), InFlight(r.inFlight, k), keys, k, last, t);
  }

  lemma FallKeeps<K(!new)>(rule: Rule, most: nat, r: Race<K>, i: nat, t: int, k: K, last: int)
    requires rule.limit >= 1 && rule.lockout > rule.window && LedgerOf(rule, most, r, k, last) && last <= t
    requires i < |r.inFlight| && NoRepeats(r.inFlight[i])
    ensures LedgerOf(rule, most, Take(rule, r, Fall(i, t)), k, t)
  {
    EventAppended(rule, r.events, Event(Failed, r.inFlight[i], t), k);
    InFlightWithout(r.inFlight, i, k);
    if k in r.inFlight[i] {
      FallOnKey(rule, most, r, Take(rule, r, Fall(i, t)), r.inFlight[i], t, k, last);
    } else {
      EventElsewhere(rule, most, r, Take(rule, r, Fall(i, t)), Event(Failed, r.inFlight[i], t), k, last);
    }
  }

  lemma {:induction false} FallOnKey<K(!new)>(rule: Rule, most: nat, r: Race<K>, r': Race<K>, keys: seq<K>, t: int, k: K, last: int)
    requires rule.limit >= 1 && rule.lockout > rule.window && LedgerOf(rule, most, r, k, last) && last <= t
    requires NoRepeats(keys) && k in keys && InFlight(r.inFlight, k) == InFlight(r'.inFlight, k) + 1
    requires After(rule, r'.events) == Fail(rule, After(rule, r.events), keys, t)
    requires FailTimes(r'.events, k) == FailTimes(r.events, k) + [t]
    ensures LedgerOf(rule, most, r', k, t)
  {
    FailureKeepsLedger(rule, most, After(rule, r.events), FailTimes(r.events, k), InFlight(r.inFlight, k), keys, k, last, t);
  }

  lemma {:induction false} EventElsewhere<K(!new)>(rule: Rule, most: nat, r: Race<K>, r': Race<K>, e: Event<K>, k: K, last: int)
    requires rule.limit >= 1 && LedgerOf(rule, most, r, k, last) && last <= e.now
    requires k !in e.keys && InFlight(r.inFlight, k) == InFlight(r'.inFlight, k)
    requires After(rule, r'.events) == Apply(rule, After(rule, r.events), e)
    requires FailTimes(r'.events, k) == FailTimes(r.events, k)
    ensures LedgerOf(rule, most, r', k, e.now)
  {
    OthersKeepLedger(rule, most, After(rule, r.events), e, FailTimes(r.events, k), InFlight(r.inFlight, k), k, last);
  }

  lemma WinKeeps<K(!new)>(rule: Rule, most: nat, r: Race<K>, i: nat, t: int, k: K, last: int)
    requires rule.limit >= 1 && LedgerOf(rule, most, r, k, last) && last <= t
    requires i < |r.inFlight| && k !in r.inFlight[i]
    ensures LedgerOf(rule, most, Take(rule, r, Win(i, t)), k, t)
  {
    var e := Event(Succeeded, r.inFlight[i], t);
    EventAppended(rule, r.events, e, k);
    InFlightWithout(r.inFlight, i, k);
    EventElsewhere(rule, most, r, Take(rule, r, Win(i, t)), e, k, last);
  }

  lemma LeaveKeeps<K(!new)>(rule: Rule, most: nat, r: Race<K>, i: nat, k: K, last: int)
    requires rule.limit >= 1 && LedgerOf(rule, most, r, k, last) && i < |r.inFlight|
    ensures LedgerOf(rule, most, Take(rule, r, Leave(i)), k, last)
  {
    var s := After(rule, r.events);
    InFlightWithout(r.inFlight, i, k);
    FewerInFlight(rule, most, Failures(s, k), LockOf(s, k), FailTimes(r.events, k), InFlight(r.inFlight, k),
                  InFlight(Without(r.inFlight, i), k), last);
  }

  lemma MoveKeepsLedger<K(!new)>(rule: Rule, most: nat, r: Race<K>, move: Move<K>, k: K, last: int, now: int)
    requires rule.limit >= 1 && rule.lockout > rule.window && LedgerOf(rule, most, r, k, last)
    requires FairMove(rule, r, move, k, last, now) && InFlight(Take(rule, r, move).inFlight, k) <= most
    ensures LedgerOf(rule, most, Take(rule, r, move), k, now)
  {
    match move {
      case Arrive(keys, t) =>
        ArriveKeeps(rule, most, r, keys, t, k, last);
      case Fall(i, t) =>
        if i < |r.inFlight| {
          FallKeeps(rule, most, r, i, t, k, last);
        }
      case Win(i, t) =>
        if i < |r.inFlight| {
          WinKeeps(rule, most, r, i, t, k, last);
        }
      case Leave(i) =>
        if i < |r.inFlight| { LeaveKeeps(rule, most, r, i, k, last); }
    }
  }

  // ---------------------------------------------------------------------------------------------
  // The bound
  // ---------------------------------------------------------------------------------------------

  function LastTime<K>(events: seq<Event<K>>, otherwise: int): int {
    if events == [] then otherwise else events[|events| - 1].now
  }

  lemma {:induction false} PrefixIsFair<K(!new)>(rule: Rule, moves: seq<Move<K>>, k: K, most: nat, start: int)
    requires moves != [] && Fair(rule, moves, k) && AtMost(rule, moves, k, most)
    requires Play(rule, moves).events != [] ==> start <= Play(rule, moves).events[0].now
    ensures var n := |moves| - 1;
      var r := Play(rule, moves[..n]);
      && Fair(rule, moves[..n], k) && AtMost(rule, moves[..n], k, most)
      && (r.events != [] ==> start <= r.events[0].now)
      && FairMove(rule, r, moves[n], k, LastTime(r.events, start), LastTime(Play(rule, moves).events, start))
      && InFlight(Play(rule, moves).inFlight, k) <= most
  {
    var n := |moves| - 1;
    EventsGrowByOne(rule, Play(rule, moves[..n]), moves[n]);
    FairStep(rule, Play(rule, moves[..n]), moves[n], k, start);
  }

  lemma FairStep<K(!new)>(rule: Rule, r: Race<K>, move: Move<K>, k: K, start: int)
    requires var next := Take(rule, r, move).events;
      WellTimed(next) && NeverReset(next, k) && (next != [] ==> start <= next[0].now)
    ensures WellTimed(r.events) && NeverReset(r.events, k) && (r.events != [] ==> start <= r.events[0].now)
    ensures FairMove(rule, r, move, k, LastTime(r.events, start), LastTime(Take(rule, r, move).events, start))
  {
    var next := Take(rule, r, move).events;
    EventsGrowByOne(rule, r, move);
    if |next| > |r.events| {
      forall i | 0 <= i < |r.events| ensures r.events[i] == next[i] {
        assert next[..|r.events|][i] == next[i];
      }
      if r.events != [] { assert next[|r.events| - 1].now <= next[|r.events|].now; }
    }
  }

  lemma EventsGrowByOne<K>(rule: Rule, r: Race<K>, move: Move<K>)
    ensures var next := Take(rule, r, move).events;
      next == r.events || (|next| == |r.events| + 1 && next[..|r.events|] == r.events)
  {
  }

  lemma {:induction false} LedgerOverRun<K(!new)>(rule: Rule, most: nat, moves: seq<Move<K>>, k: K, start: int)
    requires rule.limit >= 1 && rule.lockout > rule.window && most >= 1
    requires Fair(rule, moves, k) && AtMost(rule, moves, k, most)
    requires Play(rule, moves).events != [] ==> start <= Play(rule, moves).events[0].now
    ensures LedgerOf(rule, most, Play(rule, moves), k, LastTime(Play(rule, moves).events, start))
  {
    if moves != [] {
      var n := |moves| - 1;
      PrefixIsFair(rule, moves, k, most, start);
      LedgerOverRun(rule, most, moves[..n], k, start);
      MoveKeepsLedger(rule, most, Play(rule, moves[..n]), moves[n], k,
                      LastTime(Play(rule, moves[..n]).events, start), LastTime(Play(rule, moves).events, start));
    }
  }

  /** With at most `most` attempts in flight on a key, no window holds more than `limit + most - 1` of its failures. */
  lemma {:induction false} RacesAreBounded<K(!new)>(rule: Rule, most: nat, moves: seq<Move<K>>, k: K)
    requires rule.limit >= 1 && rule.lockout > rule.window && most >= 1
    requires Fair(rule, moves, k) && AtMost(rule, moves, k, most)
    ensures FailuresAtMost(rule, Play(rule, moves).events, k, Room(rule, most))
  {
    var events := Play(rule, moves).events;
    LedgerOverRun(rule, most, moves, k, if events == [] then 0 else events[0].now);
    forall from ensures Crowd(FailTimes(events, k), from, rule.window) <= Room(rule, most) {
      SpacedBoundsEveryInterval(FailTimes(events, k), Room(rule, most), rule.window, from);
    }
  }

  // ---------------------------------------------------------------------------------------------
  // The bound is reached
  // ---------------------------------------------------------------------------------------------

  function Copies<K>(k: K, n: nat): seq<seq<K>> {
    seq(n, _ => [k])
  }

  lemma {:induction false} CopiesInFlight<K>(k: K, n: nat)
    ensures InFlight(Copies(k, n), k) == n
  {
    if n > 0 {
      assert Copies(k, n)[..n - 1] == Copies(k, n - 1);
      CopiesInFlight(k, n - 1);
    }
  }

  ghost predicate AllAtZero<K>(events: seq<Event<K>>, k: K) {
    forall i :: 0 <= i < |events| ==> events[i].now == 0 && events[i].keys == [k] && events[i].kind != Succeeded
  }

  /** Everything has happened at time 0 and on `k` alone: `n` failures so far, `waiting` attempts in flight. */
  ghost predicate StagedRace<K>(r: Race<K>, k: K, n: nat, waiting: nat) {
    r.inFlight == Copies(k, waiting) && FailTimes(r.events, k) == Zeros(n) && AllAtZero(r.events, k)
  }

  /** The window still holds every failure, and no lockout has tripped. */
  ghost predicate CountingRace<K>(rule: Rule, r: Race<K>, k: K, n: nat) {
    var s := After(rule, r.events);
    Failures(s, k) == Zeros(n) && k !in s.lockedUntil
  }

  lemma StageArrival<K>(rule: Rule, r: Race<K>, k: K, n: nat, waiting: nat)
    requires StagedRace(r, k, n, waiting) && CountingRace(rule, r, k, n)
    ensures var next := Take(rule, r, Arrive([k], 0)); StagedRace(next, k, n, waiting + 1) && CountingRace(rule, next, k, n)
  {
    EventAppended(rule, r.events, Event(Checked, [k], 0), k);
    CheckAt(After(rule, r.events), [k], 0, k);
    assert Check(After(rule, r.events), [k], 0).1.None?;
    assert Copies(k, waiting) + [[k]] == Copies(k, waiting + 1);
  }

  lemma StageFall<K(!new)>(rule: Rule, r: Race<K>, k: K, n: nat, waiting: nat)
    requires StagedRace(r, k, n, waiting) && waiting >= 1
    ensures StagedRace(Take(rule, r, Fall(0, 0)), k, n + 1, waiting - 1)
  {
    FallEvent(rule, r, k, waiting);
    EventAppended(rule, r.events, Event(Failed, [k], 0), k);
  }

  lemma FallEvent<K>(rule: Rule, r: Race<K>, k: K, waiting: nat)
    requires r.inFlight == Copies(k, waiting) && waiting >= 1
    ensures Take(rule, r, Fall(0, 0)) == Race(r.events + [Event(Failed, [k], 0)], Copies(k, waiting - 1))
  {
    assert Without(Copies(k, waiting), 0) == Copies(k, waiting - 1);
  }

  lemma CountFall<K(!new)>(rule: Rule, r: Race<K>, k: K, n: nat, waiting: nat)
    requires r.inFlight == Copies(k, waiting) && waiting >= 1 && CountingRace(rule, r, k, n) && n + 1 < rule.limit
    ensures CountingRace(rule, Take(rule, r, Fall(0, 0)), k, n + 1)
  {
    FallEvent(rule, r, k, waiting);
    EventAppended(rule, r.events, Event(Failed, [k], 0), k);
    FailureStillCounts(rule, After(rule, r.events), k, n);
  }

  lemma FailureStillCounts<K(!new)>(rule: Rule, s: State<K>, k: K, n: nat)
    requires Failures(s, k) == Zeros(n) && k !in s.lockedUntil && n + 1 < rule.limit
    ensures var after := Fail(rule, s, [k], 0); Failures(after, k) == Zeros(n + 1) && k !in after.lockedUntil
  {
    ZerosAreZero(n);
    assert TrimFront(Zeros(n), 0 - rule.window) == Zeros(n);
    FailAt(rule, s, [k], 0, k);
  }

  ghost predicate Staged<K>(rule: Rule, moves: seq<Move<K>>, k: K, n: nat, waiting: nat, most: nat) {
    StagedRace(Play(rule, moves), k, n, waiting) && AtMost(rule, moves, k, most)
  }

  ghost predicate Primed<K>(rule: Rule, moves: seq<Move<K>>, k: K, n: nat, waiting: nat, most: nat) {
    Staged(rule, moves, k, n, waiting, most) && CountingRace(rule, Play(rule, moves), k, n)
  }

  lemma {:induction false} OneMoreMove<K>(
    rule: Rule, moves: seq<Move<K>>, move: Move<K>, more: seq<Move<K>>, k: K, n: nat, waiting: nat, most: nat)
    requires AtMost(rule, moves, k, most) && waiting <= most && more == moves + [move]
    requires StagedRace(Take(rule, Play(rule, moves), move), k, n, waiting)
    ensures Play(rule, more) == Take(rule, Play(rule, moves), move)
    ensures Staged(rule, more, k, n, waiting, most)
  {
    assert more[..|moves|] == moves;
    CopiesInFlight(k, waiting);
  }

  lemma OneMoreArrives<K>(rule: Rule, moves: seq<Move<K>>, more: seq<Move<K>>, k: K, n: nat, waiting: nat, most: nat)
    requires 1 <= waiting <= most && Primed(rule, moves, k, n, waiting - 1, most) && more == moves + [Arrive([k], 0)]
    ensures Primed(rule, more, k, n, waiting, most)
  {
    StageArrival(rule, Play(rule, moves), k, n, waiting - 1);
    OneMoreMove(rule, moves, Arrive([k], 0), more, k, n, waiting, most);
  }

  lemma OneMoreFalls<K(!new)>(rule: Rule, moves: seq<Move<K>>, more: seq<Move<K>>, k: K, n: nat, waiting: nat, most: nat)
    requires n >= 1 && waiting < most && Staged(rule, moves, k, n - 1, waiting + 1, most) && more == moves + [Fall(0, 0)]
    ensures Staged(rule, more, k, n, waiting, most)
  {
    StageFall(rule, Play(rule, moves), k, n - 1, waiting + 1);
    OneMoreMove(rule, moves, Fall(0, 0), more, k, n, waiting, most);
  }

  lemma OneMoreFallCounts<K(!new)>(
    rule: Rule, moves: seq<Move<K>>, more: seq<Move<K>>, k: K, n: nat, waiting: nat, most: nat)
    requires 1 <= n < rule.limit && waiting < most && more == moves + [Fall(0, 0)]
    requires Primed(rule, moves, k, n - 1, waiting + 1, most)
    ensures Primed(rule, more, k, n, waiting, most)
  {
    StageFall(rule, Play(rule, moves), k, n - 1, waiting + 1);
    CountFall(rule, Play(rule, moves), k, n - 1, waiting + 1);
    OneMoreMove(rule, moves, Fall(0, 0), more, k, n, waiting, most);
  }

  /** One attempt after the other, `n` times. */
  function Singles<K>(k: K, n: nat): seq<Move<K>> {
    if n == 0 then [] else Singles(k, n - 1) + [Arrive([k], 0)] + [Fall(0, 0)]
  }

  lemma {:induction false} SinglesAreStaged<K(!new)>(rule: Rule, k: K, n: nat, most: nat)
    requires n < rule.limit && most >= 1
    ensures Primed(rule, Singles(k, n), k, n, 0, most)
  {
    if n == 0 {
      assert Copies(k, 0) == [];
    } else {
      SinglesAreStaged(rule, k, n - 1, most);
      var arrived := Singles(k, n - 1) + [Arrive([k], 0)];
      OneMoreArrives(rule, Singles(k, n - 1), arrived, k, n - 1, 1, most);
      OneMoreFallCounts(rule, arrived, Singles(k, n), k, n, 0, most);
    }
  }

  /** Then `j` attempts arrive before any of them fails. */
  function Rush<K>(k: K, warmUp: nat, j: nat): seq<Move<K>> {
    if j == 0 then Singles(k, warmUp) else Rush(k, warmUp, j - 1) + [Arrive([k], 0)]
  }

  lemma {:induction false} RushIsStaged<K(!new)>(rule: Rule, k: K, n: nat, j: nat, most: nat)
    requires n < rule.limit && j <= most && most >= 1
    ensures Primed(rule, Rush(k, n, j), k, n, j, most)
  {
    if j == 0 {
      SinglesAreStaged(rule, k, n, most);
    } else {
      RushIsStaged(rule, k, n, j - 1, most);
      OneMoreArrives(rule, Rush(k, n, j - 1), Rush(k, n, j), k, n, j, most);
    }
  }

  /** And then `f` of them fail. */
  function Flood<K>(k: K, warmUp: nat, j: nat, f: nat): seq<Move<K>> {
    if f == 0 then Rush(k, warmUp, j) else Flood(k, warmUp, j, f - 1) + [Fall(0, 0)]
  }

  lemma {:induction false} FloodIsStaged<K(!new)>(rule: Rule, k: K, warmUp: nat, most: nat, f: nat)
    requires warmUp < rule.limit && most >= 1 && f <= most
    ensures Staged(rule, Flood(k, warmUp, most, f), k, warmUp + f, most - f, most)
  {
    if f == 0 {
      RushIsStaged(rule, k, warmUp, most, most);
      assert Primed(rule, Rush(k, warmUp, most), k, warmUp, most, most);
    } else {
      FloodIsStaged(rule, k, warmUp, most, f - 1);
      OneMoreFalls(rule, Flood(k, warmUp, most, f - 1), Flood(k, warmUp, most, f), k, warmUp + f, most - f, most);
    }
  }

  lemma {:induction false} AllAtZeroIsFair<K(!new)>(rule: Rule, moves: seq<Move<K>>, k: K)
    requires AllAtZero(Play(rule, moves).events, k)
    ensures Fair(rule, moves, k)
  {
  }

  lemma {:induction false} CrowdOfZeros(n: nat, window: nat)
    ensures Crowd(Zeros(n), 0, window) >= n
  {
    ZerosAreZero(n);
    if n > 0 { CrowdedInterval(Zeros(n), 0, n - 1, 0, window); }
  }

  /** The bound is the best possible: some fair run with `most` in flight fills a window with exactly that many. */
  lemma RoomIsReached<K(!new)>(rule: Rule, most: nat, k: K) returns (moves: seq<Move<K>>)
    requires rule.limit >= 1 && most >= 1
    ensures Fair(rule, moves, k) && AtMost(rule, moves, k, most)
    ensures Crowd(FailTimes(Play(rule, moves).events, k), 0, rule.window) >= Room(rule, most)
  {
    moves := Flood(k, rule.limit - 1, most, most);
    FloodIsStaged(rule, k, rule.limit - 1, most, most);
    StagedIsCrowded(rule, moves, k, Room(rule, most), 0, most);
  }

  lemma {:induction false} StagedIsCrowded<K(!new)>(rule: Rule, moves: seq<Move<K>>, k: K, n: nat, waiting: nat, most: nat)
    requires Staged(rule, moves, k, n, waiting, most)
    ensures Fair(rule, moves, k) && AtMost(rule, moves, k, most)
    ensures Crowd(FailTimes(Play(rule, moves).events, k), 0, rule.window) >= n
  {
    AllAtZeroIsFair(rule, moves, k);
    CrowdOfZeros(n, rule.window);
  }

  /** Two attempts in flight are enough to exceed any limit. */
  lemma {:induction false} OverlappingAttemptsOverflow<K(!new)>(rule: Rule, k: K)
    requires rule.limit >= 1
    ensures exists moves: seq<Move<K>> ::
      Fair(rule, moves, k) && AtMost(rule, moves, k, 2) && !Bounded(rule, Play(rule, moves).events, k)
  {
    var moves := RoomIsReached(rule, 2, k);
    assert Crowd(FailTimes(Play(rule, moves).events, k), 0, rule.window) > rule.limit;
  }

  /** A count bounds the failures of every fair run with `most` in flight exactly when it is at least `limit + most - 1`. */
  lemma {:induction false} TightestBound<K(!new)>(rule: Rule, most: nat, k: K, bound: int)
    requires rule.limit >= 1 && rule.lockout > rule.window && most >= 1
    ensures (forall moves: seq<Move<K>> :: Fair(rule, moves, k) && AtMost(rule, moves, k, most)
               ==> FailuresAtMost(rule, Play(rule, moves).events, k, bound))
       <==> bound >= Room(rule, most)
  {
    if bound >= Room(rule, most) {
      forall moves: seq<Move<K>> | Fair(rule, moves, k) && AtMost(rule, moves, k, most)
        ensures FailuresAtMost(rule, Play(rule, moves).events, k, bound)
      {
        RacesAreBounded(rule, most, moves, k);
      }
    } else {
      var moves := RoomIsReached(rule, most, k);
      assert Crowd(FailTimes(Play(rule, moves).events, k), 0, rule.window) > bound;
    }
  }

  lemma {:induction false} AtMostIsMonotone<K>(rule: Rule, moves: seq<Move<K>>, k: K, most: nat, more: nat)
    requires AtMost(rule, moves, k, most) && most <= more
    ensures AtMost(rule, moves, k, more)
  {
    if moves != [] { AtMostIsMonotone(rule, moves[..|moves| - 1], k, most, more); }
  }

  /** The limit itself holds on every fair run exactly when attempts on a key are made singly. */
  lemma LimitHoldsIffOneInFlight<K(!new)>(rule: Rule, most: nat, k: K)
    requires rule.limit >= 1 && rule.lockout > rule.window
    ensures (forall moves: seq<Move<K>> :: Fair(rule, moves, k) && AtMost(rule, moves, k, most)
               ==> Bounded(rule, Play(rule, moves).events, k))
       <==> most <= 1
  {
    if most <= 1 {
      forall moves: seq<Move<K>> | Fair(rule, moves, k) && AtMost(rule, moves, k, most)
        ensures Bounded(rule, Play(rule, moves).events, k)
      {
        AtMostIsMonotone(rule, moves, k, most, 1);
        RacesAreBounded(rule, 1, moves, k);
      }
    } else {
      var moves := RoomIsReached(rule, most, k);
      assert Crowd(FailTimes(Play(rule, moves).events, k), 0, rule.window) > rule.limit;
    }
  }
}
