/** Break-glass redemption: one mutable record per user, created on first touch. */
module BreakGlass {
  import opened Prelude
  import opened Intervals
  import Lockouts
  import LockoutRaces
  import AuthThrottle

  const REDEEM_RULE := Lockouts.Rule(3, AuthThrottle.HOUR, 24 * AuthThrottle.HOUR)

  class RateLimitState {
    var failures: seq<int>
    var lockedUntil: Option<int>

    constructor ()
      ensures failures == [] && lockedUntil == None
    {
      failures, lockedUntil := [], None;
    }
  }

  class RedeemLimiter {
    var states: map<string, RateLimitState>

    /** No record is shared by two users. */
    ghost predicate Valid()
      reads this
    {
      forall u, v :: u in states && v in states && u != v ==> states[u] != states[v]
    }

    constructor ()
      ensures Valid() && View() == Lockouts.State(map[], map[])
    {
      states := map[];
    }

    /** The limiter as the shared lockout machine sees it. */
    ghost function View(): Lockouts.State<string>
      reads this, states.Values
    {
      Lockouts.State(
        map u | u in states :: states[u].failures,
        map u | u in states && states[u].lockedUntil.Some? :: states[u].lockedUntil.value)
    }

    /** `_RATE_LIMIT[user_id]` of a defaultdict. */
    method Record(userId: string) returns (state: RateLimitState)
      requires Valid()
      modifies this
      ensures Valid() && userId in states && state == states[userId]
      ensures forall u :: Seen(u) == old(Seen(u))
      ensures fresh(states.Values - old(states.Values))
    {
      if userId !in states {
        var created := new RateLimitState();
        states := states[userId := created];
      }
      state := states[userId];
    }

    /** One user's failures and lockout, absent records reading as empty ones. */
    ghost function Seen(u: string): (seq<int>, Option<int>)
      reads this, states.Values
    {
      if u in states then (states[u].failures, states[u].lockedUntil) else ([], None)
    }

    method CheckRedeemAllowed(userId: string, now: int) returns (allowed: bool)
      requires Valid()
      modifies this, states.Values
      ensures Valid()
      ensures var (after, blocked) := Lockouts.Check(old(View()), [userId], now);
        allowed == blocked.None? && forall u :: Seen(u) == (Lockouts.Failures(after, u), Lockouts.LockOf(after, u))
    {
      ghost var before := View();
      assert forall u :: Seen(u) == (Lockouts.Failures(before, u), Lockouts.LockOf(before, u));
      var state := Record(userId);
      assert forall u :: Seen(u) == (Lockouts.Failures(before, u), Lockouts.LockOf(before, u));
      label recorded:
      if state.lockedUntil.Some? && state.lockedUntil.value <= now {
        state.lockedUntil := None;
      }
      allowed := state.lockedUntil.None?;
      ghost var after := Lockouts.EvictLockout(before, userId, now);
      assert Lockouts.Check(before, [userId], now).0 == after;
      assert old@recorded(Seen(userId)) == (Lockouts.Failures(before, userId), Lockouts.LockOf(before, userId));
      assert Seen(userId) == (Lockouts.Failures(after, userId), Lockouts.LockOf(after, userId));
      forall u | u != userId ensures Seen(u) == (Lockouts.Failures(after, u), Lockouts.LockOf(after, u)) {
        assert Seen(u) == old@recorded(Seen(u));
      }
    }

    method RecordRedeemFailure(userId: string, now: int)
      requires Valid()
      modifies this, states.Values
      ensures Valid()
      ensures var after := Lockouts.Fail(REDEEM_RULE, old(View()), [userId], now);
        forall u :: Seen(u) == (Lockouts.Failures(after, u), Lockouts.LockOf(after, u))
    {
      ghost var before := View();
      assert forall u :: Seen(u) == (Lockouts.Failures(before, u), Lockouts.LockOf(before, u));
      var state := Record(userId);
      assert forall u :: Seen(u) == (Lockouts.Failures(before, u), Lockouts.LockOf(before, u));
      label recorded:
      assert Seen(userId) == (state.failures, state.lockedUntil);
      var bucket := AuthThrottle.EvictExpired(state.failures, now, REDEEM_RULE.window);
      state.failures := bucket;
      state.failures := state.failures + [now];
      if |state.failures| >= REDEEM_RULE.limit {
        state.lockedUntil := Some(now + REDEEM_RULE.lockout);
        state.failures := [];
      }
      FailOne(before, userId, now, bucket);
      ghost var after := Lockouts.Fail(REDEEM_RULE, before, [userId], now);
      assert Seen(userId) == (state.failures, state.lockedUntil);
      forall u | u != userId ensures Seen(u) == (Lockouts.Failures(after, u), Lockouts.LockOf(after, u)) {
        assert Seen(u) == old@recorded(Seen(u));
        Lockouts.FailElsewhere(REDEEM_RULE, before, [userId], now, u);
      }
    }

    method RecordRedeemSuccess(userId: string)
      requires Valid()
      modifies this
      ensures Valid() && View() == Lockouts.Succeed(old(View()), [userId])
    {
      assert Members([userId]) == {userId};
      states := states - {userId};
    }
  }

  lemma {:induction false} FailOne(s: Lockouts.State<string>, userId: string, now: int, bucket: seq<int>)
    requires bucket == TrimFront(Lockouts.Failures(s, userId), now - REDEEM_RULE.window)
    ensures var after := Lockouts.Fail(REDEEM_RULE, s, [userId], now);
      if |bucket| + 1 >= REDEEM_RULE.limit then
        Lockouts.Failures(after, userId) == [] && Lockouts.LockOf(after, userId) == Some(now + REDEEM_RULE.lockout)
      else
        Lockouts.Failures(after, userId) == bucket + [now] && Lockouts.LockOf(after, userId) == Lockouts.LockOf(s, userId)
  {
    Lockouts.FailAt(REDEEM_RULE, s, [userId], now, userId);
  }

  /** Break-glass attempts made one after the other fail at most 3 times an hour per user. */
  lemma {:induction false} RedeemFailuresAreBounded(attempts: seq<Lockouts.Attempt<string>>, userId: string)
    requires Lockouts.Sequential(attempts)
    ensures Lockouts.Bounded(REDEEM_RULE, Lockouts.Trace(REDEEM_RULE, attempts), userId)
  {
    Lockouts.SequentialAttemptsAreBounded(REDEEM_RULE, attempts, userId);
  }

  /** With up to `most` redemptions in flight for one user, `most + 2` is the exact bound on failures in an hour. */
  lemma RedeemFailuresUnderOverlap(most: nat, userId: string, bound: int)
    requires most >= 1
    ensures (forall moves: seq<LockoutRaces.Move<string>> ::
               LockoutRaces.Fair(REDEEM_RULE, moves, userId) && LockoutRaces.AtMost(REDEEM_RULE, moves, userId, most)
               ==> LockoutRaces.FailuresAtMost(REDEEM_RULE, LockoutRaces.Play(REDEEM_RULE, moves).events, userId, bound))
       <==> bound >= most + 2
  {
    LockoutRaces.TightestBound(REDEEM_RULE, most, userId, bound);
  }

  /** Three failed redemptions within an hour lock the user out for a day; two do not. */
  lemma {:induction false} ThirdRedeemFailureLocks(s: Lockouts.State<string>, userId: string, a: int, b: int, c: int)
    requires Lockouts.Failures(s, userId) == [] && userId !in s.lockedUntil && a <= b <= c <= a + 3600 * 1_000_000
    ensures var two := Lockouts.FailAll(REDEEM_RULE, s, [userId], [a, b]); userId !in two.lockedUntil
    ensures var three := Lockouts.FailAll(REDEEM_RULE, s, [userId], [a, b, c]);
      userId in three.lockedUntil && three.lockedUntil[userId] == c + 86400 * 1_000_000
  {
    Lockouts.LimitthFailureLocks(REDEEM_RULE, s, [userId], [a, b], userId);
    Lockouts.LimitthFailureLocks(REDEEM_RULE, s, [userId], [a, b, c], userId);
  }
}
