/**
 Runs of the magic-link routes: when an address is locked out, and what a lockout keeps from happening.
 */
module MagicLinkRuns {
  import opened Prelude
  import opened Intervals
  import opened AuthThrottle
  import opened MagicLink
  import Lockouts

  // ---------------------------------------------------------------------------------------------
  // One attempt
  // ---------------------------------------------------------------------------------------------

  /** The address has a lockout that ends after `now`. */
  predicate LockedOut(locks: Lockouts.State<string>, ip: string, now: int) {
    ip in locks.lockedUntil && locks.lockedUntil[ip] > now
  }

  lemma {:induction false} OnlyTheGateLocksOut(loads: Loads, nonces: Nonces, c: Claims, a: Attempt)
    ensures ReadClaims(loads, a) != Err(ConsumeLockout)
    ensures Preview(nonces, c, a.now) != Err(ConsumeLockout) && MagicLink.Redeem(nonces, c, a.now) != Err(ConsumeLockout)
  {
  }

  /** With a known purpose, preview and redemption answer with a lockout exactly when the address has one. */
  lemma LockedOutIff(loads: Loads, locks: Lockouts.State<string>, nonces: Nonces, a: Attempt)
    requires a.expected in CEILINGS
    ensures Peek(loads, locks, nonces, a) == Err(ConsumeLockout) <==> LockedOut(locks, a.ip, a.now)
    ensures Consume(loads, locks, nonces, a) == Err(ConsumeLockout) <==> LockedOut(locks, a.ip, a.now)
  {
    GateIff(locks, a.ip, a.now);
    var claims := ReadClaims(loads, a);
    OnlyTheGateLocksOut(loads, nonces, if claims.Ok? then claims.value else Claims("", "", ""), a);
  }

  /** An unknown purpose is refused before anything is looked at. */
  lemma UnknownPurposeIsRefused(loads: Loads, locks: Lockouts.State<string>, nonces: Nonces, a: Attempt)
    requires a.expected !in CEILINGS
    ensures Peek(loads, locks, nonces, a) == Err(InvalidToken) && Consume(loads, locks, nonces, a) == Err(InvalidToken)
  {
  }

  // ---------------------------------------------------------------------------------------------
  // Runs
  // ---------------------------------------------------------------------------------------------

  /** One call: a redemption and when its failure would be recorded, a preview, or a request past its budget. */
  datatype Visit =
    | Redeem(attempt: Attempt, failedAt: int)
    | Look(attempt: Attempt)
    | Ask(request: LinkRequest)

  function Begin(v: Visit): int {
    if v.Ask? then v.request.now else v.attempt.now
  }

  function End(v: Visit): int {
    match v
    case Redeem(_, failedAt) => failedAt
    case Look(a) => a.now
    case Ask(r) => r.now
  }

  /** What a call answers: nothing of interest for a request. */
  type Answer = Option<Result<Outcome, Error>>

  function Take(loads: Loads, site: Site, v: Visit): (Site, Answer) {
    match v
    case Redeem(a, failedAt) =>
      var (after, outcome) := Posted(loads, site, a, failedAt);
      (after, Some(outcome))
    case Look(a) => (Site(Checked(site.locks, a), site.nonces), Some(Peek(loads, site.locks, site.nonces, a)))
    case Ask(r) => (Site(site.locks, Mint(site.nonces, r).0), None)
  }

  function After(loads: Loads, visits: seq<Visit>): Site {
    if visits == [] then Site(Lockouts.State(map[], map[]), map[])
    else Take(loads, After(loads, visits[..|visits| - 1]), visits[|visits| - 1]).0
  }

  function AnswerTo(loads: Loads, visits: seq<Visit>, i: nat): Answer
    requires i < |visits|
  {
    Take(loads, After(loads, visits[..i]), visits[i]).1
  }

  ghost predicate InTimeOrder(visits: seq<Visit>) {
    && (forall i :: 0 <= i < |visits| ==> Begin(visits[i]) <= End(visits[i]))
    && (forall i, j :: 0 <= i < j < |visits| ==> End(visits[i]) <= Begin(visits[j]))
  }

  /** A redemption from the address fails, for another reason than a lockout. */
  predicate Fails(loads: Loads, visits: seq<Visit>, i: nat, ip: string) {
    && i < |visits| && visits[i].Redeem? && visits[i].attempt.ip == ip
    && AnswerTo(loads, visits, i).value.Err? && AnswerTo(loads, visits, i).value != Err(ConsumeLockout)
  }

  predicate Succeeds(loads: Loads, visits: seq<Visit>, i: nat, ip: string) {
    i < |visits| && visits[i].Redeem? && visits[i].attempt.ip == ip && AnswerTo(loads, visits, i).value.Ok?
  }

  lemma {:induction false} FailsInPrefix(loads: Loads, visits: seq<Visit>, n: nat, i: nat, ip: string)
    requires i < n <= |visits|
    ensures Fails(loads, visits[..n], i, ip) <==> Fails(loads, visits, i, ip)
    ensures Succeeds(loads, visits[..n], i, ip) <==> Succeeds(loads, visits, i, ip)
  {
    assert visits[..n][..i] == visits[..i];
  }

  lemma {:induction false} AfterNext(loads: Loads, visits: seq<Visit>, j: nat)
    requires j < |visits|
    ensures After(loads, visits[..j + 1]) == Take(loads, After(loads, visits[..j]), visits[j]).0
  {
    assert visits[..j + 1][..j] == visits[..j];
  }

  // ---------------------------------------------------------------------------------------------
  // What one call does to one address
  // ---------------------------------------------------------------------------------------------

  lemma {:induction false} OneFailure(s: Lockouts.State<string>, ip: string, now: int)
    ensures Lockouts.Fail(CONSUME_RULE, s, [ip], now) == Lockouts.FailKey(CONSUME_RULE, s, ip, now)
  {
    assert [ip][1..] == [];
  }

  lemma {:induction false} OneCheck(s: Lockouts.State<string>, ip: string, now: int)
    ensures Lockouts.Check(s, [ip], now).0 == Lockouts.EvictLockout(s, ip, now)
  {
    assert [ip][1..] == [];
  }

  /** Calls from other addresses leave this one's record alone. */
  lemma {:induction false} OthersLeaveItAlone(loads: Loads, site: Site, v: Visit, ip: string)
    requires v.Ask? || v.attempt.ip != ip
    ensures var after := Take(loads, site, v).0.locks;
      && Lockouts.Failures(after, ip) == Lockouts.Failures(site.locks, ip)
      && (ip in after.lockedUntil <==> ip in site.locks.lockedUntil)
      && (ip in after.lockedUntil ==> after.lockedUntil[ip] == site.locks.lockedUntil[ip])
  {
    if !v.Ask? {
      OneCheck(site.locks, v.attempt.ip, v.attempt.now);
      if v.Redeem? { OneFailure(Checked(site.locks, v.attempt), v.attempt.ip, v.failedAt); }
    }
  }

  /** What a call from the address does to its record, by what it answers. */
  lemma {:induction false} OwnCall(loads: Loads, site: Site, v: Visit, ip: string)
    requires !v.Ask? && v.attempt.ip == ip
    ensures var (after, answer) := Take(loads, site, v);
      var fails, bucket := Lockouts.Failures(site.locks, ip), Lockouts.Failures(after.locks, ip);
      var stays := LockedOut(site.locks, ip, v.attempt.now) ==>
        ip in after.locks.lockedUntil && after.locks.lockedUntil[ip] == site.locks.lockedUntil[ip];
      if v.Redeem? && answer.value.Ok? then bucket == [] && ip !in after.locks.lockedUntil
      else if v.Redeem? && answer.value != Err(ConsumeLockout) then
        var grown := TrimFront(fails, v.failedAt - MINUTE) + [v.failedAt];
        if |grown| >= 3
        then bucket == [] && ip in after.locks.lockedUntil && after.locks.lockedUntil[ip] == v.failedAt + 10 * MINUTE
        else bucket == grown && stays
             && (ip in after.locks.lockedUntil ==>
                   ip in site.locks.lockedUntil && after.locks.lockedUntil[ip] == site.locks.lockedUntil[ip])
      else
        && bucket == fails && stays
        && (ip in after.locks.lockedUntil ==>
              ip in site.locks.lockedUntil && after.locks.lockedUntil[ip] == site.locks.lockedUntil[ip])
  {
    OneCheck(site.locks, ip, v.attempt.now);
    if v.Redeem? {
      OneFailure(Checked(site.locks, v.attempt), ip, v.failedAt);
      assert Members([ip]) == {ip};
    }
  }

  // ---------------------------------------------------------------------------------------------
  // Three failures in a minute lock the address out for ten
  // ---------------------------------------------------------------------------------------------

  predicate LockedTo(locks: Lockouts.State<string>, ip: string, t: int) {
    ip in locks.lockedUntil && locks.lockedUntil[ip] >= t
  }

  /** The last `count` of the recorded failures are no older than `t`. */
  ghost predicate TailFrom(bucket: seq<int>, count: nat, t: int) {
    count <= |bucket| && forall i :: |bucket| - count <= i < |bucket| ==> bucket[i] >= t
  }

  /** A lockout to `t` outlasts every call before `t`: a known purpose is refused, an unknown one can only extend it. */
  lemma {:induction false} LockStays(loads: Loads, site: Site, v: Visit, ip: string, t: int)
    requires LockedTo(site.locks, ip, t) && Begin(v) < t <= End(v) + 10 * MINUTE
    ensures LockedTo(Take(loads, site, v).0.locks, ip, t)
  {
    if v.Ask? || v.attempt.ip != ip {
      OthersLeaveItAlone(loads, site, v, ip);
    } else {
      OwnCall(loads, site, v, ip);
      if v.attempt.expected in CEILINGS {
        LockedOutIff(loads, site.locks, site.nonces, v.attempt);
      } else {
        UnknownPurposeIsRefused(loads, site.locks, site.nonces, v.attempt);
      }
    }
  }

  lemma {:induction false} TrimKeepsTail(bucket: seq<int>, cutoff: int, count: nat, t: int)
    requires TailFrom(bucket, count, t) && cutoff <= t
    ensures TailFrom(TrimFront(bucket, cutoff), count, t)
  {
    if bucket != [] && bucket[0] < cutoff {
      TrimKeepsTail(bucket[1..], cutoff, count, t);
    }
  }

  lemma {:induction false} FailureGrowsTail(loads: Loads, site: Site, v: Visit, ip: string, count: nat, t: int)
    requires v.Redeem? && v.attempt.ip == ip && Begin(v) <= End(v) && t <= End(v) <= t + MINUTE
    requires var answer := Take(loads, site, v).1.value; answer.Err? && answer != Err(ConsumeLockout)
    requires TailFrom(Lockouts.Failures(site.locks, ip), count, t)
    ensures var after := Take(loads, site, v).0.locks;
      LockedTo(after, ip, t + 10 * MINUTE) || TailFrom(Lockouts.Failures(after, ip), count + 1, t)
    ensures count >= 2 ==> LockedTo(Take(loads, site, v).0.locks, ip, End(v) + 10 * MINUTE)
  {
    OwnCall(loads, site, v, ip);
    TrimKeepsTail(Lockouts.Failures(site.locks, ip), v.failedAt - MINUTE, count, t);
  }

  lemma {:induction false} OtherCallKeepsTail(loads: Loads, site: Site, v: Visit, ip: string, count: nat, t: int)
    requires TailFrom(Lockouts.Failures(site.locks, ip), count, t)
    requires v.Redeem? && v.attempt.ip == ip ==> Take(loads, site, v).1 == Some(Err(ConsumeLockout))
    ensures TailFrom(Lockouts.Failures(Take(loads, site, v).0.locks, ip), count, t)
  {
    if v.Ask? || v.attempt.ip != ip {
      OthersLeaveItAlone(loads, site, v, ip);
    } else {
      OwnCall(loads, site, v, ip);
    }
  }

  /** The failures of the address from call `from` on. */
  function FailuresFrom(loads: Loads, visits: seq<Visit>, from: nat, ip: string): nat {
    if |visits| <= from then 0
    else
      var n := |visits| - 1;
      FailuresFrom(loads, visits[..n], from, ip) + if Fails(loads, visits, n, ip) then 1 else 0
  }

  lemma {:induction false} FailureCounted(loads: Loads, visits: seq<Visit>, from: nat, i: nat, ip: string)
    requires from <= i && Fails(loads, visits, i, ip)
    ensures FailuresFrom(loads, visits, from, ip) >= 1
    ensures i > from && Fails(loads, visits, from, ip) ==> FailuresFrom(loads, visits, from, ip) >= 2
  {
    var n := |visits| - 1;
    if i < n {
      assert visits[..n][..i] == visits[..i];
      if from < n { assert visits[..n][..from] == visits[..from]; }
      FailureCounted(loads, visits[..n], from, i, ip);
    } else if i > from && Fails(loads, visits, from, ip) {
      assert visits[..n][..from] == visits[..from];
      FailureCounted(loads, visits[..n], from, from, ip);
    }
  }

  lemma {:induction false} RecordStep(loads: Loads, site: Site, v: Visit, ip: string, count: nat, t: int, fails: bool)
    requires Begin(v) <= End(v) && t <= Begin(v) && End(v) <= t + MINUTE
    requires v.Redeem? && v.attempt.ip == ip ==>
      var answer := Take(loads, site, v).1.value; answer.Err? && (fails <==> answer != Err(ConsumeLockout))
    requires !(v.Redeem? && v.attempt.ip == ip) ==> !fails
    requires LockedTo(site.locks, ip, t + 10 * MINUTE) || TailFrom(Lockouts.Failures(site.locks, ip), count, t)
    ensures var locks := Take(loads, site, v).0.locks;
      LockedTo(locks, ip, t + 10 * MINUTE) || TailFrom(Lockouts.Failures(locks, ip), if fails then count + 1 else count, t)
  {
    if LockedTo(site.locks, ip, t + 10 * MINUTE) {
      LockStays(loads, site, v, ip, t + 10 * MINUTE);
    } else if fails {
      FailureGrowsTail(loads, site, v, ip, count, t);
    } else {
      OtherCallKeepsTail(loads, site, v, ip, count, t);
    }
  }

  /** A minute from call `from` on in which the address has no success. */
  ghost predicate Spell(loads: Loads, visits: seq<Visit>, from: nat, ip: string)
    requires from < |visits|
  {
    forall k :: from < k < |visits| ==> !Succeeds(loads, visits, k, ip) && End(visits[k]) <= End(visits[from]) + MINUTE
  }

  lemma {:induction false} SpellPrefix(loads: Loads, visits: seq<Visit>, from: nat, ip: string, n: nat)
    requires from < n <= |visits| && Spell(loads, visits, from, ip)
    ensures Spell(loads, visits[..n], from, ip)
  {
    forall k | from < k < n ensures !Succeeds(loads, visits[..n], k, ip) {
      FailsInPrefix(loads, visits, n, k, ip);
      assert !Succeeds(loads, visits, k, ip);
    }
  }

  /** From a failure on, within the spell: the address is locked out, or every failure is on record. */
  lemma {:induction false} LockedOrOnRecord(loads: Loads, visits: seq<Visit>, from: nat, ip: string)
    requires InTimeOrder(visits) && Fails(loads, visits, from, ip) && Spell(loads, visits, from, ip)
    ensures var locks, t := After(loads, visits).locks, End(visits[from]);
      || LockedTo(locks, ip, t + 10 * MINUTE)
      || TailFrom(Lockouts.Failures(locks, ip), FailuresFrom(loads, visits, from, ip), t)
  {
    var n := |visits| - 1;
    var site, t := After(loads, visits[..n]), End(visits[from]);
    assert AnswerTo(loads, visits, n) == Take(loads, site, visits[n]).1;
    if n == from {
      FailureGrowsTail(loads, site, visits[n], ip, 0, t);
    } else {
      FailsInPrefix(loads, visits, n, from, ip);
      SpellPrefix(loads, visits, from, ip, n);
      LockedOrOnRecord(loads, visits[..n], from, ip);
      assert !Succeeds(loads, visits, n, ip);
      RecordStep(loads, site, visits[n], ip, FailuresFrom(loads, visits[..n], from, ip), t, Fails(loads, visits, n, ip));
    }
  }

  /** Three failures of the address within a minute, the last with a known purpose, and no success between. */
  ghost predicate ThreeInAMinute(loads: Loads, visits: seq<Visit>, first: nat, second: nat, third: nat, ip: string) {
    && first < second < third < |visits|
    && Fails(loads, visits, first, ip) && Fails(loads, visits, second, ip) && Fails(loads, visits, third, ip)
    && End(visits[third]) <= End(visits[first]) + 60 * 1_000_000 && visits[third].attempt.expected in CEILINGS
    && forall k :: first < k < third ==> !Succeeds(loads, visits, k, ip)
  }

  lemma {:induction false} RecordBefore(
    loads: Loads, visits: seq<Visit>, before: seq<Visit>, first: nat, second: nat, third: nat, ip: string) returns (count: nat)
    requires InTimeOrder(visits) && ThreeInAMinute(loads, visits, first, second, third, ip) && before == visits[..third]
    ensures count >= 2
    ensures var locks, t := After(loads, before).locks, End(visits[first]);
      LockedTo(locks, ip, t + 10 * MINUTE) || TailFrom(Lockouts.Failures(locks, ip), count, t)
  {
    FailsInPrefix(loads, visits, third, first, ip);
    FailsInPrefix(loads, visits, third, second, ip);
    forall k | first < k < |before|
      ensures !Succeeds(loads, before, k, ip) && End(before[k]) <= End(before[first]) + MINUTE
    {
      FailsInPrefix(loads, visits, third, k, ip);
      assert !Succeeds(loads, visits, k, ip);
    }
    assert Spell(loads, before, first, ip);
    LockedOrOnRecord(loads, before, first, ip);
    FailureCounted(loads, before, first, second, ip);
    count := FailuresFrom(loads, before, first, ip);
  }

  lemma {:induction false} ThirdFailureStep(loads: Loads, site: Site, v: Visit, ip: string, count: nat, t: int)
    requires v.Redeem? && v.attempt.ip == ip && v.attempt.expected in CEILINGS && Begin(v) <= End(v) && t <= End(v) <= t + MINUTE
    requires var answer := Take(loads, site, v).1.value; answer.Err? && answer != Err(ConsumeLockout)
    requires count >= 2
    requires LockedTo(site.locks, ip, t + 10 * MINUTE) || TailFrom(Lockouts.Failures(site.locks, ip), count, t)
    ensures LockedTo(Take(loads, site, v).0.locks, ip, End(v) + 10 * MINUTE)
  {
    LockedOutIff(loads, site.locks, site.nonces, v.attempt);
    FailureGrowsTail(loads, site, v, ip, count, t);
  }

  /** The third failure within a minute locks the address for ten. */
  lemma {:induction false} ThirdFailureLocks(loads: Loads, visits: seq<Visit>, first: nat, second: nat, third: nat, ip: string)
    requires InTimeOrder(visits) && ThreeInAMinute(loads, visits, first, second, third, ip)
    ensures LockedTo(After(loads, visits[..third + 1]).locks, ip, End(visits[third]) + 10 * MINUTE)
  {
    var count := RecordBefore(loads, visits, visits[..third], first, second, third, ip);
    AfterNext(loads, visits, third);
    ThirdFailureStep(loads, After(loads, visits[..third]), visits[third], ip, count, End(visits[first]));
  }

  lemma {:induction false} LockStep(loads: Loads, visits: seq<Visit>, n: nat, third: nat, ip: string)
    requires InTimeOrder(visits) && third < n && n + 1 == |visits|
    requires LockedTo(After(loads, visits[..n]).locks, ip, End(visits[third]) + 10 * MINUTE)
    requires Begin(visits[n]) < End(visits[third]) + 10 * MINUTE
    ensures LockedTo(After(loads, visits).locks, ip, End(visits[third]) + 10 * MINUTE)
  {
    LockStays(loads, After(loads, visits[..n]), visits[n], ip, End(visits[third]) + 10 * MINUTE);
  }

  lemma {:induction false} LockLasts(loads: Loads, visits: seq<Visit>, third: nat, ip: string)
    requires InTimeOrder(visits) && third < |visits|
    requires LockedTo(After(loads, visits[..third + 1]).locks, ip, End(visits[third]) + 10 * MINUTE)
    requires forall k :: third < k < |visits| ==> Begin(visits[k]) < End(visits[third]) + 10 * MINUTE
    ensures LockedTo(After(loads, visits).locks, ip, End(visits[third]) + 10 * MINUTE)
  {
    var n := |visits| - 1;
    if n == third {
      assert visits[..third + 1] == visits;
    } else {
      assert visits[..n][..third + 1] == visits[..third + 1];
      LockLasts(loads, visits[..n], third, ip);
      LockStep(loads, visits, n, third, ip);
    }
  }

  lemma {:induction false} LockedOutLater(loads: Loads, visits: seq<Visit>, third: nat, j: nat, ip: string)
    requires InTimeOrder(visits) && third < j < |visits|
    requires LockedTo(After(loads, visits[..third + 1]).locks, ip, End(visits[third]) + 10 * MINUTE)
    requires Begin(visits[j]) < End(visits[third]) + 10 * MINUTE
    ensures LockedTo(After(loads, visits[..j]).locks, ip, End(visits[third]) + 10 * MINUTE)
  {
    assert visits[..j][..third + 1] == visits[..third + 1];
    LockLasts(loads, visits[..j], third, ip);
  }

  lemma {:induction false} LockedOutCall(loads: Loads, site: Site, v: Visit, ip: string)
    requires !v.Ask? && v.attempt.ip == ip && v.attempt.expected in CEILINGS && LockedOut(site.locks, ip, v.attempt.now)
    ensures Take(loads, site, v).1 == Some(Err(ConsumeLockout)) && Take(loads, site, v).0.nonces == site.nonces
  {
    LockedOutIff(loads, site.locks, site.nonces, v.attempt);
  }

  lemma {:induction false} LockedOutAt(loads: Loads, visits: seq<Visit>, third: nat, j: nat, ip: string)
    requires InTimeOrder(visits) && third < j < |visits|
    requires LockedTo(After(loads, visits[..third + 1]).locks, ip, End(visits[third]) + 10 * MINUTE)
    requires !visits[j].Ask? && visits[j].attempt.ip == ip && visits[j].attempt.expected in CEILINGS
    requires visits[j].attempt.now < End(visits[third]) + 10 * MINUTE
    ensures AnswerTo(loads, visits, j) == Some(Err(ConsumeLockout))
    ensures After(loads, visits[..j + 1]).nonces == After(loads, visits[..j]).nonces
  {
    LockedOutLater(loads, visits, third, j, ip);
    LockedOutCall(loads, After(loads, visits[..j]), visits[j], ip);
    AfterNext(loads, visits, j);
  }

  /**
   After the third failure of an address within a minute, with no success between, every call from it with a known
   purpose is answered with a lockout until ten minutes are over, and no nonce changes.
   */
  lemma {:induction false} ThreeFailuresLockOut(
    loads: Loads, visits: seq<Visit>, first: nat, second: nat, third: nat, j: nat, ip: string)
    requires InTimeOrder(visits) && ThreeInAMinute(loads, visits, first, second, third, ip) && third < j < |visits|
    requires !visits[j].Ask? && visits[j].attempt.ip == ip && visits[j].attempt.expected in CEILINGS
    requires visits[j].attempt.now < End(visits[third]) + 600 * 1_000_000
    ensures AnswerTo(loads, visits, j) == Some(Err(ConsumeLockout))
    ensures After(loads, visits[..j + 1]).nonces == After(loads, visits[..j]).nonces
  {
    ThirdFailureLocks(loads, visits, first, second, third, ip);
    LockedOutAt(loads, visits, third, j, ip);
  }

  // ---------------------------------------------------------------------------------------------
  // And nothing else locks it out
  // ---------------------------------------------------------------------------------------------

  /** The failures on record are those of these calls, one after the other, with no success since. */
  ghost predicate OnRecord(loads: Loads, visits: seq<Visit>, ip: string, bucket: seq<int>, calls: seq<nat>) {
    && |calls| == |bucket| <= 2
    && (forall k :: 0 <= k < |calls| ==> Fails(loads, visits, calls[k], ip) && End(visits[calls[k]]) == bucket[k])
    && (forall k, l :: 0 <= k < l < |calls| ==> calls[k] < calls[l])
    && (forall k, m: nat :: 0 <= k < |calls| && calls[k] < m < |visits| ==> !Succeeds(loads, visits, m, ip))
  }

  /** Three failures within a minute with no success between, the last of them ten minutes before `until`. */
  ghost predicate Earned(loads: Loads, visits: seq<Visit>, ip: string, until: int, first: nat, second: nat, third: nat) {
    && first < second < third < |visits|
    && Fails(loads, visits, first, ip) && Fails(loads, visits, second, ip) && Fails(loads, visits, third, ip)
    && End(visits[third]) <= End(visits[first]) + 60 * 1_000_000 && until == End(visits[third]) + 600 * 1_000_000
    && forall k :: first < k < third ==> !Succeeds(loads, visits, k, ip)
  }

  ghost predicate LockEarned(loads: Loads, visits: seq<Visit>, ip: string, locks: Lockouts.State<string>) {
    ip in locks.lockedUntil ==>
      exists first, second, third :: Earned(loads, visits, ip, locks.lockedUntil[ip], first, second, third)
  }

  lemma {:induction false} EarnedLater(
    loads: Loads, visits: seq<Visit>, n: nat, ip: string, until: int, first: nat, second: nat, third: nat)
    requires n <= |visits| && Earned(loads, visits[..n], ip, until, first, second, third)
    ensures Earned(loads, visits, ip, until, first, second, third)
  {
    FailsInPrefix(loads, visits, n, first, ip);
    FailsInPrefix(loads, visits, n, second, ip);
    FailsInPrefix(loads, visits, n, third, ip);
    forall k | first < k < third ensures !Succeeds(loads, visits, k, ip) {
      assert !Succeeds(loads, visits[..n], k, ip);
      FailsInPrefix(loads, visits, n, k, ip);
    }
  }

  lemma {:induction false} OnRecordLater(loads: Loads, visits: seq<Visit>, n: nat, ip: string, bucket: seq<int>, calls: seq<nat>)
    requires n + 1 == |visits| && OnRecord(loads, visits[..n], ip, bucket, calls) && !Succeeds(loads, visits, n, ip)
    ensures OnRecord(loads, visits, ip, bucket, calls)
  {
    forall k | 0 <= k < |calls| ensures Fails(loads, visits, calls[k], ip) && End(visits[calls[k]]) == bucket[k] {
      FailsInPrefix(loads, visits, n, calls[k], ip);
    }
    forall k, m: nat | 0 <= k < |calls| && calls[k] < m < |visits| ensures !Succeeds(loads, visits, m, ip) {
      if m < n {
        assert !Succeeds(loads, visits[..n], m, ip);
        FailsInPrefix(loads, visits, n, m, ip);
      }
    }
  }

  lemma {:induction false} OnRecordTrimmed(
    loads: Loads, visits: seq<Visit>, ip: string, bucket: seq<int>, calls: seq<nat>, cutoff: int) returns (kept: seq<nat>)
    requires OnRecord(loads, visits, ip, bucket, calls)
    ensures OnRecord(loads, visits, ip, TrimFront(bucket, cutoff), kept)
    ensures TrimFront(bucket, cutoff) != [] ==> TrimFront(bucket, cutoff)[0] >= cutoff
    ensures forall c :: c in kept ==> c in calls
  {
    var d := Stale(bucket, cutoff);
    TrimDropsStale(bucket, cutoff);
    kept := calls[d..];
  }

  /** A recorded failure either fills the minute, and is the third, or goes on record. */
  lemma {:induction false} FailureOnRecord(
    loads: Loads, visits: seq<Visit>, n: nat, ip: string, kept: seq<int>, calls: seq<nat>, cutoff: int)
    returns (more: seq<nat>)
    requires n + 1 == |visits| && Fails(loads, visits, n, ip) && cutoff == End(visits[n]) - 60 * 1_000_000
    requires OnRecord(loads, visits, ip, kept, calls) && n !in calls && (kept != [] ==> kept[0] >= cutoff)
    ensures |kept| == 2 ==>
      && |calls| == 2 && Earned(loads, visits, ip, End(visits[n]) + 600 * 1_000_000, calls[0], calls[1], n)
    ensures |kept| < 2 ==> OnRecord(loads, visits, ip, kept + [End(visits[n])], more)
  {
    forall k | 0 <= k < |calls| ensures calls[k] < n {
      assert Fails(loads, visits, calls[k], ip);
    }
    more := calls + [n];
    if |kept| == 2 {
      assert calls[0] < calls[1] && kept[0] == End(visits[calls[0]]);
    }
  }

  lemma {:induction false} LockKept(loads: Loads, visits: seq<Visit>, n: nat, ip: string, before: Lockouts.State<string>, after: Lockouts.State<string>)
    requires n <= |visits| && LockEarned(loads, visits[..n], ip, before)
    requires ip in after.lockedUntil ==> ip in before.lockedUntil && after.lockedUntil[ip] == before.lockedUntil[ip]
    ensures LockEarned(loads, visits, ip, after)
  {
    if ip in after.lockedUntil {
      var first, second, third :| Earned(loads, visits[..n], ip, before.lockedUntil[ip], first, second, third);
      EarnedLater(loads, visits, n, ip, before.lockedUntil[ip], first, second, third);
    }
  }

  /** The address's record and lockout are those of its calls. */
  ghost predicate Explained(loads: Loads, visits: seq<Visit>, ip: string, locks: Lockouts.State<string>, calls: seq<nat>) {
    OnRecord(loads, visits, ip, Lockouts.Failures(locks, ip), calls) && LockEarned(loads, visits, ip, locks)
  }

  lemma {:induction false} CallsAreEarlier(loads: Loads, visits: seq<Visit>, n: nat, ip: string, bucket: seq<int>, calls: seq<nat>)
    requires n <= |visits| && OnRecord(loads, visits[..n], ip, bucket, calls)
    ensures n !in calls
  {
    forall c | c in calls ensures c < n {
      assert Fails(loads, visits[..n], c, ip);
    }
  }

  lemma {:induction false} ExplainedLater(
    loads: Loads, visits: seq<Visit>, n: nat, ip: string, before: Lockouts.State<string>, after: Lockouts.State<string>, calls: seq<nat>)
    requires n + 1 == |visits| && Explained(loads, visits[..n], ip, before, calls) && !Succeeds(loads, visits, n, ip)
    requires Lockouts.Failures(after, ip) == Lockouts.Failures(before, ip)
    requires ip in after.lockedUntil ==> ip in before.lockedUntil && after.lockedUntil[ip] == before.lockedUntil[ip]
    ensures Explained(loads, visits, ip, after, calls)
  {
    OnRecordLater(loads, visits, n, ip, Lockouts.Failures(before, ip), calls);
    LockKept(loads, visits, n, ip, before, after);
  }

  lemma {:induction false} CallExplained(
    loads: Loads, visits: seq<Visit>, n: nat, ip: string, site: Site, after: Site, earlier: seq<nat>) returns (calls: seq<nat>)
    requires n + 1 == |visits| && site == After(loads, visits[..n]) && after == Take(loads, site, visits[n]).0
    requires Explained(loads, visits[..n], ip, site.locks, earlier)
    ensures Explained(loads, visits, ip, after.locks, calls)
  {
    var v := visits[n];
    calls := earlier;
    if v.Ask? || v.attempt.ip != ip {
      OthersLeaveItAlone(loads, site, v, ip);
      ExplainedLater(loads, visits, n, ip, site.locks, after.locks, earlier);
    } else {
      OwnCall(loads, site, v, ip);
      if Succeeds(loads, visits, n, ip) {
        calls := [];
      } else if Fails(loads, visits, n, ip) {
        OnRecordLater(loads, visits, n, ip, Lockouts.Failures(site.locks, ip), earlier);
        CallsAreEarlier(loads, visits, n, ip, Lockouts.Failures(site.locks, ip), earlier);
        calls := OwnFailure(loads, visits, n, ip, site, earlier);
      } else {
        ExplainedLater(loads, visits, n, ip, site.locks, after.locks, earlier);
      }
    }
  }

  lemma {:induction false} RecordAndLock(loads: Loads, visits: seq<Visit>, ip: string) returns (calls: seq<nat>)
    ensures Explained(loads, visits, ip, After(loads, visits).locks, calls)
  {
    if visits == [] {
      return [];
    }
    var n := |visits| - 1;
    var earlier := RecordAndLock(loads, visits[..n], ip);
    calls := CallExplained(loads, visits, n, ip, After(loads, visits[..n]), After(loads, visits), earlier);
  }

  lemma {:induction false} OwnFailure(loads: Loads, visits: seq<Visit>, n: nat, ip: string, site: Site, earlier: seq<nat>)
    returns (calls: seq<nat>)
    requires n + 1 == |visits| && site == After(loads, visits[..n]) && Fails(loads, visits, n, ip)
    requires OnRecord(loads, visits, ip, Lockouts.Failures(site.locks, ip), earlier) && n !in earlier
    requires LockEarned(loads, visits[..n], ip, site.locks)
    ensures OnRecord(loads, visits, ip, Lockouts.Failures(After(loads, visits).locks, ip), calls)
    ensures LockEarned(loads, visits, ip, After(loads, visits).locks)
  {
    var v, bucket := visits[n], Lockouts.Failures(site.locks, ip);
    var cutoff := v.failedAt - MINUTE;
    OwnCall(loads, site, v, ip);
    var kept := OnRecordTrimmed(loads, visits, ip, bucket, earlier, cutoff);
    var more := FailureOnRecord(loads, visits, n, ip, TrimFront(bucket, cutoff), kept, cutoff);
    if |TrimFront(bucket, cutoff)| == 2 {
      calls := [];
      assert Earned(loads, visits, ip, After(loads, visits).locks.lockedUntil[ip], kept[0], kept[1], n);
    } else {
      calls := more;
      LockKept(loads, visits, n, ip, site.locks, After(loads, visits).locks);
    }
  }

  /** Whoever is answered with a lockout failed three times within a minute, the last time less than ten minutes ago. */
  lemma {:induction false} LockoutIsEarned(loads: Loads, visits: seq<Visit>, j: nat) returns (first: nat, second: nat, third: nat)
    requires j < |visits| && AnswerTo(loads, visits, j) == Some(Err(ConsumeLockout))
    ensures !visits[j].Ask? && first < second < third < j
    ensures var ip := visits[j].attempt.ip;
      && Fails(loads, visits, first, ip) && Fails(loads, visits, second, ip) && Fails(loads, visits, third, ip)
      && End(visits[third]) <= End(visits[first]) + 60 * 1_000_000
      && (forall k :: first < k < third ==> !Succeeds(loads, visits, k, ip))
    ensures visits[j].attempt.now < End(visits[third]) + 600 * 1_000_000
  {
    var before, a := visits[..j], visits[j].attempt;
    var site := After(loads, before);
    if a.expected in CEILINGS {
      LockedOutIff(loads, site.locks, site.nonces, a);
    } else {
      UnknownPurposeIsRefused(loads, site.locks, site.nonces, a);
    }
    var calls := RecordAndLock(loads, before, a.ip);
    first, second, third :| Earned(loads, before, a.ip, site.locks.lockedUntil[a.ip], first, second, third);
    EarnedLater(loads, visits, j, a.ip, site.locks.lockedUntil[a.ip], first, second, third);
  }
}
