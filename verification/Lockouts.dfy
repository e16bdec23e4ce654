/**
 Rolling failure windows that flip a timed lockout: the machine shared by magic-link consume,
 passkey login (two keys an attempt) and break-glass redemption.
 */
module Lockouts {
  import opened Prelude
  import opened Intervals

  datatype Rule = Rule(limit: nat, window: nat, lockout: nat)

  datatype State<!K(==)> = State(fails: map<K, seq<int>>, lockedUntil: map<K, int>)

  function Failures<K>(s: State<K>, k: K): seq<int> {
    if k in s.fails then s.fails[k] else []
  }

  /** Clear the key's lockout if it has elapsed. */
  function EvictLockout<K>(s: State<K>, k: K, now: int): State<K> {
    if k in s.lockedUntil && s.lockedUntil[k] <= now then s.(lockedUntil := s.lockedUntil - {k}) else s
  }

  /** Keys in turn; the first one still locked out refuses the attempt. */
  function Check<K>(s: State<K>, keys: seq<K>, now: int): (State<K>, Option<K>)
    decreases |keys|
  {
    if keys == [] then (s, None)
    else
      var evicted := EvictLockout(s, keys[0], now);
      if keys[0] in evicted.lockedUntil then (evicted, Some(keys[0])) else Check(evicted, keys[1..], now)
  }

  function FailKey<K>(rule: Rule, s: State<K>, k: K, now: int): State<K> {
    var bucket := TrimFront(Failures(s, k), now - rule.window) + [now];
    if |bucket| >= rule.limit then State(s.fails[k := []], s.lockedUntil[k := now + rule.lockout])
    else s.(fails := s.fails[k := bucket])
  }

  function Fail<K>(rule: Rule, s: State<K>, keys: seq<K>, now: int): State<K>
    decreases |keys|
  {
    if keys == [] then s else Fail(rule, FailKey(rule, s, keys[0], now), keys[1..], now)
  }

  function Succeed<K>(s: State<K>, keys: seq<K>): State<K> {
    State(s.fails - Members(keys), s.lockedUntil - Members(keys))
  }

  // ---------------------------------------------------------------------------------------------
  // Runs
  // ---------------------------------------------------------------------------------------------

  datatype Kind = Checked | Failed | Succeeded

  datatype Event<K> = Event(kind: Kind, keys: seq<K>, now: int)

  function Apply<K>(rule: Rule, s: State<K>, e: Event<K>): State<K> {
    match e.kind
    case Checked => Check(s, e.keys, e.now).0
    case Failed => Fail(rule, s, e.keys, e.now)
    case Succeeded => Succeed(s, e.keys)
  }

  function After<K>(rule: Rule, events: seq<Event<K>>): State<K> {
    if events == [] then State(map[], map[])
    else Apply(rule, After(rule, events[..|events| - 1]), events[|events| - 1])
  }

  /** When failures of `k` were recorded, lockouts and trims notwithstanding. */
  function FailTimes<K(==)>(events: seq<Event<K>>, k: K): seq<int> {
    if events == [] then []
    else
      var earlier, e := FailTimes(events[..|events| - 1], k), events[|events| - 1];
      if e.kind == Failed && k in e.keys then earlier + [e.now] else earlier
  }

  /** A check naming `k` has passed since the last failure of `k`. */
  predicate Cleared<K(==)>(rule: Rule, events: seq<Event<K>>, k: K) {
    events != [] &&
      var earlier, e := events[..|events| - 1], events[|events| - 1];
      if e.kind == Failed && k in e.keys then false
      else if e.kind == Checked && k in e.keys && Check(After(rule, earlier), e.keys, e.now).1.None? then true
      else Cleared(rule, earlier, k)
  }

  /** Each failure of `k` follows its own passed check, and no success resets `k`. */
  predicate Disciplined<K(==)>(rule: Rule, events: seq<Event<K>>, k: K) {
    events != [] ==>
      var earlier, e := events[..|events| - 1], events[|events| - 1];
      && Disciplined(rule, earlier, k)
      && (k in e.keys ==> e.kind != Succeeded && (e.kind == Failed ==> Cleared(rule, earlier, k)))
  }

  ghost predicate WellTimed<K(!new)>(events: seq<Event<K>>) {
    && (forall i, j :: 0 <= i < j < |events| ==> events[i].now <= events[j].now)
    && (forall i :: 0 <= i < |events| ==> NoRepeats(events[i].keys))
  }

  /** At most `limit` failures of `k` in any closed interval as long as the failure window. */
  ghost predicate Bounded<K>(rule: Rule, events: seq<Event<K>>, k: K) {
    forall from :: Crowd(FailTimes(events, k), from, rule.window) <= rule.limit
  }

  // ---------------------------------------------------------------------------------------------
  // What one event does to one key
  // ---------------------------------------------------------------------------------------------

  lemma {:induction false} CheckAt<K>(s: State<K>, keys: seq<K>, now: int, k: K)
    ensures var (after, blocked) := Check(s, keys, now);
      && after.fails == s.fails
      && (k in after.lockedUntil ==> k in s.lockedUntil && after.lockedUntil[k] == s.lockedUntil[k])
      && (k in s.lockedUntil && k !in after.lockedUntil ==> s.lockedUntil[k] <= now)
      && (blocked.None? && k in keys ==> k !in after.lockedUntil)
    decreases |keys|
  {
    if keys != [] {
      var evicted := EvictLockout(s, keys[0], now);
      CheckAt(evicted, keys[1..], now, k);
      CheckAt(evicted, keys[1..], now, keys[0]);
    }
  }

  lemma {:induction false} FailElsewhere<K>(rule: Rule, s: State<K>, keys: seq<K>, now: int, k: K)
    requires k !in keys
    ensures var after := Fail(rule, s, keys, now);
      && Failures(after, k) == Failures(s, k)
      && (k in after.lockedUntil <==> k in s.lockedUntil)
      && (k in s.lockedUntil ==> after.lockedUntil[k] == s.lockedUntil[k])
    decreases |keys|
  {
    if keys != [] {
      FailElsewhere(rule, FailKey(rule, s, keys[0], now), keys[1..], now, k);
    }
  }

  /** A failure naming several keys counts against each of them independently. */
  lemma {:induction false} FailAt<K(!new)>(rule: Rule, s: State<K>, keys: seq<K>, now: int, k: K)
    requires k in keys && NoRepeats(keys)
    ensures var after := Fail(rule, s, keys, now);
      var bucket := TrimFront(Failures(s, k), now - rule.window) + [now];
      if |bucket| >= rule.limit then
        Failures(after, k) == [] && k in after.lockedUntil && after.lockedUntil[k] == now + rule.lockout
      else
        && Failures(after, k) == bucket && (k in after.lockedUntil <==> k in s.lockedUntil)
        && (k in s.lockedUntil ==> after.lockedUntil[k] == s.lockedUntil[k])
    decreases |keys|
  {
    var next := FailKey(rule, s, keys[0], now);
    if keys[0] == k {
      assert k !in keys[1..];
      FailElsewhere(rule, next, keys[1..], now, k);
    } else {
      FailAt(rule, next, keys[1..], now, k);
    }
  }

  // ---------------------------------------------------------------------------------------------
  // The bound
  // ---------------------------------------------------------------------------------------------

  /** The first `count` stamps can share no window with anything at `t` or later. */
  ghost predicate Old(all: seq<int>, count: nat, window: nat, t: int) {
    count <= |all| && forall j :: 0 <= j < count ==> all[j] + window < t
  }

  /** `kept` is the tail of `all`. */
  predicate IsTail(kept: seq<int>, all: seq<int>) {
    |kept| <= |all| && kept == all[|all| - |kept|..]
  }

  /** The stored failures are the tail of all failures; every dropped one is old by now, or by the end of the lockout. */
  ghost predicate Covers(rule: Rule, kept: seq<int>, lock: Option<int>, all: seq<int>, now: int) {
    && IsTail(kept, all) && |kept| < rule.limit
    && Sorted(all) && AllUpTo(all, now) && Spaced(all, rule.limit, rule.window)
    && (Old(all, |all| - |kept|, rule.window, now) || (lock.Some? && Old(all, |all| - |kept|, rule.window, lock.value)))
  }

  lemma TrimKeepsTail(kept: seq<int>, all: seq<int>, window: nat, now: int)
    requires IsTail(kept, all) && Old(all, |all| - |kept|, window, now)
    ensures var live := TrimFront(kept, now - window);
      IsTail(live, all) && IsTail(live + [now], all + [now]) && Old(all, |all| - |live|, window, now)
  {
    var drop := Stale(kept, now - window);
    TrimDropsStale(kept, now - window);
    var before := |all| - |kept|;
    assert kept[drop..] == all[before + drop..];
    forall j | 0 <= j < before + drop ensures all[j] + window < now {
      if j >= before { assert all[j] == kept[j - before]; }
    }
  }

  lemma AppendStaysSpaced(all: seq<int>, count: nat, limit: nat, window: nat, now: int)
    requires Spaced(all, limit, window) && Old(all, count, window, now) && |all| - count < limit
    ensures Spaced(all + [now], limit, window)
  {
  }

  /** Fewer than `limit` recent failures: the window keeps them all. */
  lemma StillCounting(rule: Rule, live: seq<int>, all: seq<int>, last: int, now: int)
    requires Sorted(all) && AllUpTo(all, last) && last <= now && |live| + 1 < rule.limit
    requires IsTail(live + [now], all + [now]) && Old(all, |all| - |live|, rule.window, now)
    requires Spaced(all + [now], rule.limit, rule.window)
    ensures Covers(rule, live + [now], None, all + [now], now)
  {
    assert Sorted(all + [now]) && AllUpTo(all + [now], now);
  }

  /** The failure that fills the window clears it, and the lockout outlasts every window it could share. */
  lemma LockedOut(rule: Rule, all: seq<int>, last: int, now: int)
    requires rule.limit >= 1 && rule.lockout > rule.window
    requires Sorted(all) && AllUpTo(all, last) && last <= now
    requires Spaced(all + [now], rule.limit, rule.window)
    ensures Covers(rule, [], Some(now + rule.lockout), all + [now], now)
  {
    assert Sorted(all + [now]) && AllUpTo(all + [now], now);
    assert Old(all + [now], |all| + 1, rule.window, now + rule.lockout);
  }

  /** The trimmed window still covers all failures, and the new one keeps them spaced. */
  lemma {:induction false} TrimmedCovers(rule: Rule, kept: seq<int>, live: seq<int>, all: seq<int>, last: int, now: int)
    requires Covers(rule, kept, None, all, last) && last <= now && live == TrimFront(kept, now - rule.window)
    ensures IsTail(live + [now], all + [now]) && |live| <= |all| && Old(all, |all| - |live|, rule.window, now)
    ensures Spaced(all + [now], rule.limit, rule.window)
  {
    TrimKeepsTail(kept, all, rule.window, now);
    TrimDropsStale(kept, now - rule.window);
    AppendStaysSpaced(all, |all| - |live|, rule.limit, rule.window, now);
  }

  lemma {:induction false} FailKeepsCover(rule: Rule, kept: seq<int>, bucket: seq<int>, all: seq<int>, last: int, now: int)
    requires rule.limit >= 1 && rule.lockout > rule.window
    requires Covers(rule, kept, None, all, last) && last <= now && bucket == TrimFront(kept, now - rule.window) + [now]
    ensures |bucket| >= rule.limit ==> Covers(rule, [], Some(now + rule.lockout), all + [now], now)
    ensures |bucket| < rule.limit ==> Covers(rule, bucket, None, all + [now], now)
  {
    var live := TrimFront(kept, now - rule.window);
    TrimmedCovers(rule, kept, live, all, last, now);
    if |bucket| >= rule.limit {
      LockedOut(rule, all, last, now);
    } else {
      StillCounting(rule, live, all, last, now);
    }
  }

  function LockOf<K>(s: State<K>, k: K): Option<int> {
    if k in s.lockedUntil then Some(s.lockedUntil[k]) else None
  }

  ghost predicate CoversKey<K>(rule: Rule, s: State<K>, all: seq<int>, k: K, now: int) {
    Covers(rule, Failures(s, k), LockOf(s, k), all, now)
  }

  lemma LaterKeepsCover(rule: Rule, kept: seq<int>, lock: Option<int>, lock': Option<int>, all: seq<int>, last: int, now: int)
    requires Covers(rule, kept, lock, all, last) && last <= now
    requires lock' == lock || (lock.Some? && lock'.None? && lock.value <= now)
    ensures Covers(rule, kept, lock', all, now)
  {
  }

  lemma {:induction false} FailureKeepsCover<K(!new)>(rule: Rule, s: State<K>, keys: seq<K>, now: int, all: seq<int>, k: K, last: int)
    requires rule.limit >= 1 && rule.lockout > rule.window && NoRepeats(keys) && k in keys
    requires CoversKey(rule, s, all, k, last) && last <= now && k !in s.lockedUntil
    ensures CoversKey(rule, Fail(rule, s, keys, now), all + [now], k, now)
  {
    var bucket, after := TrimFront(Failures(s, k), now - rule.window) + [now], Fail(rule, s, keys, now);
    FailAt(rule, s, keys, now, k);
    assert LockOf(after, k) == if |bucket| >= rule.limit then Some(now + rule.lockout) else None;
    assert Failures(after, k) == if |bucket| >= rule.limit then [] else bucket;
    FailKeepsCover(rule, Failures(s, k), bucket, all, last, now);
  }

  /** One event, seen by one key. */
  lemma ApplyKeepsCover<K(!new)>(rule: Rule, s: State<K>, e: Event<K>, all: seq<int>, k: K, last: int)
    requires rule.limit >= 1 && rule.lockout > rule.window && NoRepeats(e.keys)
    requires CoversKey(rule, s, all, k, last) && last <= e.now
    requires k in e.keys ==> e.kind != Succeeded && (e.kind == Failed ==> k !in s.lockedUntil)
    ensures CoversKey(rule, Apply(rule, s, e), if e.kind == Failed && k in e.keys then all + [e.now] else all, k, e.now)
    ensures k !in s.lockedUntil && !(e.kind == Failed && k in e.keys) ==> k !in Apply(rule, s, e).lockedUntil
  {
    if e.kind == Failed && k in e.keys {
      FailureKeepsCover(rule, s, e.keys, e.now, all, k, last);
    } else {
      OtherEventAt(rule, s, e, k);
      LaterKeepsCover(rule, Failures(s, k), LockOf(s, k), LockOf(Apply(rule, s, e), k), all, last, e.now);
    }
  }

  /** Events other than a failure or a success of `k` leave its failures alone and at most lift a lapsed lockout. */
  lemma OtherEventAt<K(!new)>(rule: Rule, s: State<K>, e: Event<K>, k: K)
    requires k in e.keys ==> e.kind == Checked
    ensures var s' := Apply(rule, s, e);
      && Failures(s', k) == Failures(s, k)
      && (LockOf(s', k) == LockOf(s, k) || (LockOf(s, k).Some? && LockOf(s', k).None? && LockOf(s, k).value <= e.now))
  {
    if e.kind == Checked { CheckAt(s, e.keys, e.now, k); }
    if e.kind == Failed { FailElsewhere(rule, s, e.keys, e.now, k); }
  }

  lemma {:induction false} ClearedMeansUnlocked<K(!new)>(rule: Rule, events: seq<Event<K>>, k: K)
    requires Cleared(rule, events, k)
    ensures k !in After(rule, events).lockedUntil
  {
    var earlier, e := events[..|events| - 1], events[|events| - 1];
    CheckAt(After(rule, earlier), e.keys, e.now, k);
    if !(e.kind == Checked && k in e.keys && Check(After(rule, earlier), e.keys, e.now).1.None?) {
      ClearedMeansUnlocked(rule, earlier, k);
      if e.kind == Failed { FailElsewhere(rule, After(rule, earlier), e.keys, e.now, k); }
    }
  }

  lemma NothingToCover<K(!new)>(rule: Rule, k: K, now: int)
    requires rule.limit >= 1
    ensures CoversKey(rule, State(map[], map[]), [], k, now)
  {
  }

  lemma {:induction false} DisciplinedStep<K(!new)>(rule: Rule, events: seq<Event<K>>, earlier: seq<Event<K>>, e: Event<K>, k: K)
    requires events != [] && earlier == events[..|events| - 1] && e == events[|events| - 1]
    requires WellTimed(events) && Disciplined(rule, events, k)
    ensures WellTimed(earlier) && Disciplined(rule, earlier, k) && NoRepeats(e.keys)
    ensures earlier != [] ==> earlier[|earlier| - 1].now <= e.now
    ensures k in e.keys ==> e.kind != Succeeded && (e.kind == Failed ==> k !in After(rule, earlier).lockedUntil)
    ensures After(rule, events) == Apply(rule, After(rule, earlier), e)
    ensures FailTimes(events, k) == if e.kind == Failed && k in e.keys then FailTimes(earlier, k) + [e.now] else FailTimes(earlier, k)
  {
    if e.kind == Failed && k in e.keys { ClearedMeansUnlocked(rule, earlier, k); }
  }

  lemma {:induction false} CoverOverRun<K(!new)>(rule: Rule, events: seq<Event<K>>, k: K)
    requires rule.limit >= 1 && rule.lockout > rule.window && events != []
    requires WellTimed(events) && Disciplined(rule, events, k)
    ensures CoversKey(rule, After(rule, events), FailTimes(events, k), k, events[|events| - 1].now)
  {
    var n := |events| - 1;
    var earlier, e := events[..n], events[n];
    DisciplinedStep(rule, events, earlier, e, k);
    var last := e.now;
    if n > 0 {
      CoverOverRun(rule, earlier, k);
      last := earlier[n - 1].now;
    } else {
      NothingToCover(rule, k, last);
    }
    ApplyKeepsCover(rule, After(rule, earlier), e, FailTimes(earlier, k), k, last);
  }

  lemma {:induction false} DisciplinedRunsAreBounded<K(!new)>(rule: Rule, events: seq<Event<K>>, k: K)
    requires rule.limit >= 1 && rule.lockout > rule.window
    requires WellTimed(events) && Disciplined(rule, events, k)
    ensures Bounded(rule, events, k)
  {
    if events != [] {
      CoverOverRun(rule, events, k);
    }
    forall from ensures Crowd(FailTimes(events, k), from, rule.window) <= rule.limit {
      SpacedBoundsEveryInterval(FailTimes(events, k), rule.limit, rule.window, from);
    }
  }

  // ---------------------------------------------------------------------------------------------
  // The lockout has to outlast the window
  // ---------------------------------------------------------------------------------------------

  function Zeros(n: nat): seq<int> {
    if n == 0 then [] else Zeros(n - 1) + [0]
  }

  lemma {:induction false} ZerosAreZero(n: nat)
    ensures |Zeros(n)| == n && forall i :: 0 <= i < n ==> Zeros(n)[i] == 0
  {
    if n > 0 { ZerosAreZero(n - 1); }
  }

  function CheckThenFail<K>(k: K, now: int): seq<Event<K>> {
    [Event(Checked, [k], now), Event(Failed, [k], now)]
  }

  function Burst<K>(k: K, n: nat): seq<Event<K>> {
    if n == 0 then [] else Burst(k, n - 1) + CheckThenFail(k, 0)
  }

  /** Unfolding one check and one failure of the same key at the end of a run. */
  lemma {:induction false} CheckThenFailStep<K(!new)>(rule: Rule, events: seq<Event<K>>, k: K, now: int)
    requires var s := After(rule, events); k in s.lockedUntil ==> s.lockedUntil[k] <= now
    requires Disciplined(rule, events, k)
    ensures var more := events + CheckThenFail(k, now);
      && Disciplined(rule, more, k)
      && FailTimes(more, k) == FailTimes(events, k) + [now]
      && After(rule, more) == Fail(rule, Check(After(rule, events), [k], now).0, [k], now)
  {
    var checked := events + [Event(Checked, [k], now)];
    var more := events + CheckThenFail(k, now);
    assert checked[..|events|] == events;
    assert more[..|events| + 1] == checked;
    assert Check(After(rule, events), [k], now).1.None?;
    assert Cleared(rule, checked, k);
  }

  lemma {:induction false} BurstFillsTheWindow<K(!new)>(rule: Rule, k: K, n: nat)
    requires n <= rule.limit && rule.limit >= 1
    ensures var s := After(rule, Burst(k, n));
      && Disciplined(rule, Burst(k, n), k) && FailTimes(Burst(k, n), k) == Zeros(n)
      && (n < rule.limit ==> Failures(s, k) == Zeros(n) && k !in s.lockedUntil)
      && (n == rule.limit ==> k in s.lockedUntil && s.lockedUntil[k] == rule.lockout)
  {
    if n > 0 {
      BurstFillsTheWindow(rule, k, n - 1);
      BurstGrows(rule, Burst(k, n - 1), k, n - 1);
    }
  }

  lemma BurstGrows<K(!new)>(rule: Rule, burst: seq<Event<K>>, k: K, n: nat)
    requires n < rule.limit && Disciplined(rule, burst, k) && FailTimes(burst, k) == Zeros(n)
    requires Failures(After(rule, burst), k) == Zeros(n) && k !in After(rule, burst).lockedUntil
    ensures var more := burst + CheckThenFail(k, 0);
      && Disciplined(rule, more, k) && FailTimes(more, k) == Zeros(n + 1)
      && var s := After(rule, more);
         if n + 1 < rule.limit then Failures(s, k) == Zeros(n + 1) && k !in s.lockedUntil
         else k in s.lockedUntil && s.lockedUntil[k] == rule.lockout
  {
    CheckThenFailStep(rule, burst, k, 0);
    OneMoreFailure(rule, After(rule, burst), k, n);
  }

  lemma OneMoreFailure<K(!new)>(rule: Rule, s: State<K>, k: K, n: nat)
    requires n < rule.limit && Failures(s, k) == Zeros(n) && k !in s.lockedUntil
    ensures var after := Fail(rule, Check(s, [k], 0).0, [k], 0);
      if n + 1 < rule.limit then Failures(after, k) == Zeros(n + 1) && k !in after.lockedUntil
      else k in after.lockedUntil && after.lockedUntil[k] == rule.lockout
  {
    ZerosAreZero(n);
    CheckAt(s, [k], 0, k);
    var checked := Check(s, [k], 0).0;
    assert Failures(checked, k) == Zeros(n);
    assert TrimFront(Zeros(n), 0 - rule.window) == Zeros(n);
    FailAt(rule, checked, [k], 0, k);
  }

  lemma {:induction false} BurstHappensAtZero<K(!new)>(k: K, n: nat)
    ensures forall i :: 0 <= i < |Burst(k, n)| ==> Burst(k, n)[i].now == 0 && Burst(k, n)[i].keys == [k]
  {
    if n > 0 { BurstHappensAtZero(k, n - 1); }
  }

  lemma {:induction false} ZerosThenOneMore(limit: nat, t: nat, window: nat)
    requires t <= window
    ensures Crowd(Zeros(limit) + [t], 0, window) > limit
  {
    ZerosAreZero(limit);
    CrowdedInterval(Zeros(limit) + [t], 0, limit, 0, window);
  }

  lemma {:induction false} ShortLockoutsOverflow<K(!new)>(rule: Rule, k: K)
    requires rule.limit >= 1 && rule.lockout <= rule.window
    ensures exists events: seq<Event<K>> :: WellTimed(events) && Disciplined(rule, events, k) && !Bounded(rule, events, k)
  {
    var burst := Burst(k, rule.limit);
    var events := burst + CheckThenFail(k, rule.lockout);
    BurstFillsTheWindow(rule, k, rule.limit);
    CheckThenFailStep(rule, burst, k, rule.lockout);
    BurstHappensAtZero(k, rule.limit);
    assert WellTimed(events);
    ZerosThenOneMore(rule.limit, rule.lockout, rule.window);
    assert Crowd(FailTimes(events, k), 0, rule.window) > rule.limit;
  }

  /** The failure bound holds on every disciplined run exactly when the lockout is longer than the window. */
  lemma {:induction false} BoundedIffLockoutOutlastsWindow<K(!new)>(rule: Rule, k: K)
    requires rule.limit >= 1
    ensures (forall events: seq<Event<K>> :: WellTimed(events) && Disciplined(rule, events, k) ==> Bounded(rule, events, k))
       <==> rule.lockout > rule.window
  {
    if rule.lockout > rule.window {
      forall events: seq<Event<K>> | WellTimed(events) && Disciplined(rule, events, k) ensures Bounded(rule, events, k) {
        DisciplinedRunsAreBounded(rule, events, k);
      }
    } else {
      ShortLockoutsOverflow(rule, k);
    }
  }

  // ---------------------------------------------------------------------------------------------
  // Failing attempts, one after the other
  // ---------------------------------------------------------------------------------------------

  /** A failing attempt: the check at `now`, and if it passes the failure recorded at `failedAt`. */
  datatype Attempt<K> = Attempt(keys: seq<K>, now: int, failedAt: int)

  function Trace<K(==)>(rule: Rule, attempts: seq<Attempt<K>>): seq<Event<K>> {
    if attempts == [] then []
    else
      var a := attempts[|attempts| - 1];
      var checked := Trace(rule, attempts[..|attempts| - 1]) + [Event(Checked, a.keys, a.now)];
      if Check(After(rule, Trace(rule, attempts[..|attempts| - 1])), a.keys, a.now).1.None?
      then checked + [Event(Failed, a.keys, a.failedAt)] else checked
  }

  ghost predicate Sequential<K(!new)>(attempts: seq<Attempt<K>>) {
    && (forall i :: 0 <= i < |attempts| ==> NoRepeats(attempts[i].keys) && attempts[i].now <= attempts[i].failedAt)
    && (forall i, j :: 0 <= i < j < |attempts| ==> attempts[i].failedAt <= attempts[j].now)
  }

  lemma WellTimedAppend<K(!new)>(events: seq<Event<K>>, e: Event<K>)
    requires WellTimed(events) && NoRepeats(e.keys) && (events != [] ==> events[|events| - 1].now <= e.now)
    ensures WellTimed(events + [e])
  {
  }

  lemma {:induction false} TraceIsWellTimed<K(!new)>(rule: Rule, attempts: seq<Attempt<K>>)
    requires Sequential(attempts)
    ensures WellTimed(Trace(rule, attempts))
    ensures var t := Trace(rule, attempts);
      t != [] ==> attempts != [] && t[|t| - 1].now <= attempts[|attempts| - 1].failedAt
  {
    if attempts != [] {
      var n := |attempts| - 1;
      var a, before := attempts[n], Trace(rule, attempts[..n]);
      TraceIsWellTimed(rule, attempts[..n]);
      WellTimedAppend(before, Event(Checked, a.keys, a.now));
      WellTimedAppend(before + [Event(Checked, a.keys, a.now)], Event(Failed, a.keys, a.failedAt));
    }
  }

  lemma {:induction false} TraceIsDisciplined<K(!new)>(rule: Rule, attempts: seq<Attempt<K>>, k: K)
    ensures Disciplined(rule, Trace(rule, attempts), k)
  {
    if attempts != [] {
      var n := |attempts| - 1;
      var a, before := attempts[n], Trace(rule, attempts[..n]);
      TraceIsDisciplined(rule, attempts[..n], k);
      var checked := before + [Event(Checked, a.keys, a.now)];
      assert checked[..|before|] == before;
      if Check(After(rule, before), a.keys, a.now).1.None? {
        assert (checked + [Event(Failed, a.keys, a.failedAt)])[..|checked|] == checked;
      }
    }
  }

  /** Attempts made one after the other never fail more than `limit` times in a window on any key they name. */
  lemma {:induction false} SequentialAttemptsAreBounded<K(!new)>(rule: Rule, attempts: seq<Attempt<K>>, k: K)
    requires rule.limit >= 1 && rule.lockout > rule.window && Sequential(attempts)
    ensures Bounded(rule, Trace(rule, attempts), k)
  {
    TraceIsWellTimed(rule, attempts);
    TraceIsDisciplined(rule, attempts, k);
    DisciplinedRunsAreBounded(rule, Trace(rule, attempts), k);
  }

  // ---------------------------------------------------------------------------------------------
  // What a check refuses, what a success forgets, and which failure locks
  // ---------------------------------------------------------------------------------------------

  predicate LockedAt<K>(s: State<K>, k: K, now: int) {
    k in s.lockedUntil && s.lockedUntil[k] > now
  }

  /** A check passes exactly when none of its keys has a lockout that ends later, and else reports the first that has. */
  lemma {:induction false} CheckRefusesIff<K>(s: State<K>, keys: seq<K>, now: int)
    ensures var blocked := Check(s, keys, now).1;
      && (blocked.None? <==> forall i :: 0 <= i < |keys| ==> !LockedAt(s, keys[i], now))
      && (blocked.Some? ==> exists i :: 0 <= i < |keys| && keys[i] == blocked.value && LockedAt(s, keys[i], now)
                              && forall j :: 0 <= j < i ==> !LockedAt(s, keys[j], now))
    decreases |keys|
  {
    if keys != [] {
      var evicted, rest := EvictLockout(s, keys[0], now), keys[1..];
      if keys[0] in evicted.lockedUntil {
        assert LockedAt(s, keys[0], now);
      } else {
        CheckRefusesIff(evicted, rest, now);
        assert forall i :: 0 < i < |keys| ==> keys[i] == rest[i - 1];
        assert forall k :: LockedAt(evicted, k, now) <==> LockedAt(s, k, now);
        var blocked := Check(evicted, rest, now).1;
        if blocked.Some? {
          var i :| 0 <= i < |rest| && rest[i] == blocked.value && LockedAt(evicted, rest[i], now)
            && forall j :: 0 <= j < i ==> !LockedAt(evicted, rest[j], now);
          assert keys[i + 1] == blocked.value;
          forall j | 0 <= j < i + 1 ensures !LockedAt(s, keys[j], now) {
            if j > 0 { assert keys[j] == rest[j - 1]; }
          }
        } else {
          forall i | 0 <= i < |keys| ensures !LockedAt(s, keys[i], now) {
            if i > 0 { assert keys[i] == rest[i - 1]; }
          }
        }
      }
    }
  }

  /** A success forgets the failures and the lockout of each key it names, and nothing of any other. */
  lemma SucceedAt<K>(s: State<K>, keys: seq<K>, k: K)
    ensures var after := Succeed(s, keys);
      if k in keys then Failures(after, k) == [] && k !in after.lockedUntil
      else
        && Failures(after, k) == Failures(s, k) && (k in after.lockedUntil <==> k in s.lockedUntil)
        && (k in s.lockedUntil ==> after.lockedUntil[k] == s.lockedUntil[k])
  {
  }

  /** The state after failures of these keys at these times. */
  function FailAll<K>(rule: Rule, s: State<K>, keys: seq<K>, times: seq<int>): State<K> {
    if times == [] then s
    else Fail(rule, FailAll(rule, s, keys, times[..|times| - 1]), keys, times[|times| - 1])
  }

  lemma {:induction false} NothingToTrim(times: seq<int>, cutoff: int)
    requires forall i :: 0 <= i < |times| ==> times[i] >= cutoff
    ensures TrimFront(times, cutoff) == times
  {
  }

  /**
   From a clean record, failures within one window go on record until there are `limit` of them; that one locks the
   key for the length of the lockout and clears the record. One failure fewer locks nothing.
   */
  lemma {:induction false} LimitthFailureLocks<K(!new)>(rule: Rule, s: State<K>, keys: seq<K>, times: seq<int>, k: K)
    requires rule.limit >= 1 && NoRepeats(keys) && k in keys && Failures(s, k) == [] && k !in s.lockedUntil
    requires forall i, j :: 0 <= i <= j < |times| ==> times[i] <= times[j] <= times[i] + rule.window
    ensures var after := FailAll(rule, s, keys, times);
      && (|times| < rule.limit ==> Failures(after, k) == times && k !in after.lockedUntil)
      && (|times| == rule.limit ==>
            Failures(after, k) == [] && k in after.lockedUntil && after.lockedUntil[k] == times[|times| - 1] + rule.lockout)
  {
    if times != [] && |times| <= rule.limit {
      var n := |times| - 1;
      LimitthFailureLocks(rule, s, keys, times[..n], k);
      FailAt(rule, FailAll(rule, s, keys, times[..n]), keys, times[n], k);
      NothingToTrim(times[..n], times[n] - rule.window);
      assert times[..n] + [times[n]] == times;
    }
  }
}
