/** What the throttle's budgets, retry hints and lockouts promise over whole runs. */
module ThrottleTheorems {
  import opened Prelude
  import opened Intervals
  import opened WindowStore
  import opened WindowTheorems
  import opened AuthThrottle
  import Lockouts
  import LockoutRaces
  import Text
  import WindowLocks

  // ---------------------------------------------------------------------------------------------
  // Budgets
  // ---------------------------------------------------------------------------------------------

  datatype TimedCall = TimedCall(call: Call, now: int)

  function Calls(calls: seq<TimedCall>): (r: seq<Request>)
    ensures |r| == |calls|
  {
    seq(|calls|, i requires 0 <= i < |calls| => Request(Batch(calls[i].call), calls[i].now))
  }

  lemma FlowsDiffer(scope: string)
    requires scope != []
    ensures scope[0] == 's' ==> scope != "request:ip" && scope != "request:email"
    ensures scope == "recover_start:global" || scope == "recover_start:ip" || scope == "recover_start:email" ==>
      && scope != "request:ip" && scope != "request:email" && scope != "signup_start:global"
      && scope != "signup_start:ip" && scope != "signup_start:email"
  {
    assert "request:ip"[2] == 'q' && "request:email"[2] == 'q' && "request:ip"[0] == 'r' && "request:email"[0] == 'r';
    assert "signup_start:global"[2] == 'g' && "signup_start:ip"[2] == 'g' && "signup_start:email"[2] == 'g';
    assert "recover_start:global"[2] == 'c' && "recover_start:ip"[2] == 'c' && "recover_start:email"[2] == 'c';
  }

  lemma BatchIsWellFormed(call: Call)
    ensures WellFormed(Batch(call), QuotaOf)
  {
    var checks := Batch(call);
    ScopesDiffer();
    forall i | 0 <= i < |checks|
      ensures Quota(checks[i].limit, checks[i].window) == QuotaOf(checks[i].bucket) && checks[i].limit >= 1
    {
      FlowsDiffer(checks[i].bucket.scope);
    }
  }

  /**
   Any mix of link requests, signups and recoveries, on either backend: no bucket (deployment-wide,
   address or e-mail) is ever hit more often than its quota in any closed minute or hour.
   */
  lemma {:induction false} BudgetsHoldOverEveryRun(backend: Backend, calls: seq<TimedCall>, b: Bucket, from: int)
    requires forall i, j :: 0 <= i < j < |calls| ==> calls[i].now <= calls[j].now
    ensures Runnable(Calls(calls))
    ensures Crowd(AcceptedAt(Calls(calls), Run(backend, Calls(calls)).1, b), from, QuotaOf(b).window) <= QuotaOf(b).limit
  {
    forall i | 0 <= i < |calls| ensures WellFormed(Calls(calls)[i].checks, QuotaOf) {
      BatchIsWellFormed(calls[i].call);
    }
    CapHoldsOverEveryRun(backend, Calls(calls), QuotaOf, b, from);
  }

  lemma EmailScopeIsFirst()
    ensures Text.Less("request:email", "request:ip")
  {
    assert Text.Less("email", "ip");
    Text.LessBehind("request:", "email", "ip");
    assert "request:" + "email" == "request:email" && "request:" + "ip" == "request:ip";
  }

  /** A link request locks its e-mail's bucket before its address's. */
  lemma LinkRequestPlan(ip: string, email: string)
    ensures var checks := Batch(RequestLink(ip, email));
      && LimitsArePositive(checks) && Distinct(checks)
      && WindowLocks.IsLockPlan([Bucket("request:email", email), Bucket("request:ip", ip)], checks)
  {
    EmailScopeIsFirst();
    WindowLocks.PairPlan(Bucket("request:email", email), Bucket("request:ip", ip), Batch(RequestLink(ip, email)));
  }

  /** Two link requests deadlock when each one's address has the lock number of the other's e-mail. */
  lemma LinkRequestsCanDeadlock(lockId: Bucket -> int, ip: string, email: string, otherIp: string, otherEmail: string)
    requires lockId(Bucket("request:ip", ip)) == lockId(Bucket("request:email", otherEmail))
    requires lockId(Bucket("request:ip", otherIp)) == lockId(Bucket("request:email", email))
    requires lockId(Bucket("request:email", email)) != lockId(Bucket("request:email", otherEmail))
    ensures WindowLocks.CanDeadlock(lockId, Batch(RequestLink(ip, email)), Batch(RequestLink(otherIp, otherEmail)))
  {
    LinkRequestPlan(ip, email);
    LinkRequestPlan(otherIp, otherEmail);
    WindowLocks.CrossedBatchesDeadlock(
      lockId, Bucket("request:email", email), Bucket("request:ip", ip), Bucket("request:email", otherEmail),
      Bucket("request:ip", otherIp), Batch(RequestLink(ip, email)), Batch(RequestLink(otherIp, otherEmail)));
  }

  // ---------------------------------------------------------------------------------------------
  // The retry hint
  // ---------------------------------------------------------------------------------------------

  /** The history of a bucket when request `i` arrives. */
  function HitsBefore(reqs: seq<Request>, i: nat, b: Bucket): seq<int>
    requires Runnable(reqs) && i <= |reqs|
  {
    Get(Run(History, reqs[..i]).0, b)
  }

  lemma {:induction false} JudgedAt(history: Hits, checks: seq<WindowCheck>, now: int, from: nat)
    requires LimitsArePositive(checks) && from <= |checks|
    ensures var v := Judge(history, checks, now, from);
      v.Some? ==>
        && from <= v.value.index < |checks|
        && var c := checks[v.value.index]; var live := Live(Get(history, c.bucket), now - c.window);
           |live| >= c.limit && v.value.oldestInWindow == live[0]
    decreases |checks| - from
  {
    if from < |checks| { JudgedAt(history, checks, now, from + 1); }
  }

  lemma {:induction false} FullBucketIsRefused(history: Hits, checks: seq<WindowCheck>, now: int, from: nat, i: nat)
    requires LimitsArePositive(checks) && from <= i < |checks|
    requires |Live(Get(history, checks[i].bucket), now - checks[i].window)| >= checks[i].limit
    ensures Judge(history, checks, now, from).Some?
    decreases i - from
  {
    if from < i { FullBucketIsRefused(history, checks, now, from + 1, i); }
  }

  lemma StepOnlyGrows(history: Hits, checks: seq<WindowCheck>, now: int, b: Bucket)
    requires LimitsArePositive(checks) && Distinct(checks)
    ensures Get(history, b) <= Get(HistoryStep(history, checks, now).0, b)
  {
    RecordAllAt(history, checks, now, b);
  }

  lemma {:induction false} LastStepGrows(reqs: seq<Request>, m: nat, b: Bucket)
    requires Runnable(reqs) && m + 1 == |reqs| && Distinct(reqs[m].checks)
    ensures HitsBefore(reqs, m, b) <= Get(Run(History, reqs).0, b)
  {
    assert reqs[..|reqs| - 1] == reqs[..m];
    var earlier := Run(History, reqs[..m]).0;
    assert Run(History, reqs).0 == HistoryStep(earlier, reqs[m].checks, reqs[m].now).0;
    StepOnlyGrows(earlier, reqs[m].checks, reqs[m].now, b);
  }

  lemma PrefixIsOrderly(reqs: seq<Request>, policy: Policy, n: nat)
    requires Orderly(reqs, policy) && n <= |reqs|
    ensures Orderly(reqs[..n], policy)
  {
  }

  lemma PrefixOfPrefix(a: seq<int>, b: seq<int>, c: seq<int>)
    requires a <= b && b <= c
    ensures a <= c
  {
  }

  lemma {:induction false} HistoryOnlyGrows(reqs: seq<Request>, n: nat, policy: Policy, b: Bucket)
    requires Orderly(reqs, policy) && n <= |reqs|
    ensures HitsBefore(reqs, n, b) <= Get(Run(History, reqs).0, b)
  {
    if n == |reqs| {
      assert reqs[..n] == reqs;
    } else {
      var m := |reqs| - 1;
      assert reqs[..m][..n] == reqs[..n];
      PrefixIsOrderly(reqs, policy, m);
      HistoryOnlyGrows(reqs[..m], n, policy, b);
      assert WellFormed(reqs[m].checks, policy);
      LastStepGrows(reqs, m, b);
      PrefixOfPrefix(HitsBefore(reqs, n, b), HitsBefore(reqs, m, b), Get(Run(History, reqs).0, b));
    }
  }

  lemma {:induction false} LiveOfConcat(a: seq<int>, b: seq<int>, cutoff: int)
    ensures Live(a + b, cutoff) == Live(a, cutoff) + Live(b, cutoff)
  {
    if a == [] {
      assert a + b == b;
    } else {
      assert (a + b)[1..] == a[1..] + b;
      LiveOfConcat(a[1..], b, cutoff);
    }
  }

  /** While the oldest live hit still counts, every hit that was live still counts. */
  lemma {:induction false} LiveUntilOldestLeaves(hits: seq<int>, early: int, late: int)
    requires Sorted(hits) && early <= late && Live(hits, early) != [] && late <= Live(hits, early)[0]
    ensures Live(hits, late) == Live(hits, early)
  {
    TrimIsLive(hits, early);
    LiveKeepsAll(Live(hits, early), late);
    LiveOfLive(hits, early, late);
  }

  /** Once the oldest live hit has left, at least one fewer counts. */
  lemma {:induction false} OneFewerOnceOldestLeaves(hits: seq<int>, early: int, late: int)
    requires Sorted(hits) && early <= late && Live(hits, early) != [] && Live(hits, early)[0] < late
    ensures |Live(hits, late)| < |Live(hits, early)|
  {
    var live := Live(hits, early);
    TrimIsLive(hits, early);
    LiveOfLive(hits, early, late);
    TrimIsLive(live, late);
    assert Stale(live, late) >= 1;
  }

  /** The hint is between one second and the whole window. */
  lemma RetryHintRange(oldest: int, windowSeconds: nat, now: int)
    requires windowSeconds >= 1 && now - windowSeconds * SECOND <= oldest <= now
    ensures 1 <= RetryAfterSeconds(oldest, windowSeconds * SECOND, now) <= windowSeconds
  {
  }

  /** The rejection that request `i` of a run meets, if any. */
  function RejectionOf(reqs: seq<Request>, i: nat): Verdict
    requires i < |reqs| && Runnable(reqs)
  {
    Judge(Run(History, reqs[..i]).0, reqs[i].checks, reqs[i].now, 0)
  }

  lemma {:induction false} HistoryVerdicts(reqs: seq<Request>, i: nat)
    requires Runnable(reqs) && i < |reqs|
    ensures Run(History, reqs).1[i] == RejectionOf(reqs, i)
  {
    var n := |reqs| - 1;
    if i < n {
      HistoryVerdicts(reqs[..n], i);
      assert reqs[..n][..i] == reqs[..i];
    }
  }

  lemma {:induction false} VerdictsAreRejections(backend: Backend, reqs: seq<Request>, policy: Policy, i: nat)
    requires Orderly(reqs, policy) && i < |reqs|
    ensures Run(backend, reqs).1[i] == RejectionOf(reqs, i)
  {
    RunTracks(backend, reqs, policy, reqs[0].now);
    HistoryVerdicts(reqs, i);
  }

  lemma SortedHistory(reqs: seq<Request>, policy: Policy, i: nat, b: Bucket)
    requires Orderly(reqs, policy) && i < |reqs|
    ensures var hits := HitsBefore(reqs, i, b); Sorted(hits) && AllUpTo(hits, reqs[i].now)
  {
    var start := if i == 0 then reqs[i].now else reqs[0].now;
    RunTracks(History, reqs[..i], policy, start);
    var hits := HitsBefore(reqs, i, b);
    assert TracksAt(hits, hits, policy(b).window, LastTime(reqs[..i], start));
  }

  /** The request that is refused, as its caller sees it: which check tripped, and the hint. */
  ghost predicate RefusedAt(reqs: seq<Request>, i: nat, c: WindowCheck, oldest: int) {
    && i < |reqs| && Runnable(reqs)
    && var v := RejectionOf(reqs, i);
       v.Some? && v.value.index < |reqs[i].checks| && c == reqs[i].checks[v.value.index] && oldest == v.value.oldestInWindow
  }

  lemma LiveWhenRefused(reqs: seq<Request>, policy: Policy, i: nat, c: WindowCheck, oldest: int)
    requires Orderly(reqs, policy) && RefusedAt(reqs, i, c, oldest)
    ensures var live := Live(HitsBefore(reqs, i, c.bucket), reqs[i].now - c.window);
      |live| == c.limit >= 1 && live[0] == oldest && c.window >= 0
  {
    JudgedAt(Run(History, reqs[..i]).0, reqs[i].checks, reqs[i].now, 0);
    SortedHistory(reqs, policy, i, c.bucket);
    HistoryIsSpaced(reqs[..i], policy, c.bucket);
    AtMostLimitLive(HitsBefore(reqs, i, c.bucket), policy(c.bucket), reqs[i].now);
  }

  lemma {:induction false} NoRoomIsRefused(backend: Backend, reqs: seq<Request>, policy: Policy, c: WindowCheck, j: nat, k: nat)
    requires Orderly(reqs, policy) && j < |reqs| && k < |reqs[j].checks| && reqs[j].checks[k] == c
    requires |Live(HitsBefore(reqs, j, c.bucket), reqs[j].now - c.window)| >= c.limit
    ensures Run(backend, reqs).1[j].Some?
  {
    FullBucketIsRefused(Run(History, reqs[..j]).0, reqs[j].checks, reqs[j].now, 0, k);
    VerdictsAreRejections(backend, reqs, policy, j);
  }

  lemma HistoryGrowsBetween(reqs: seq<Request>, i: nat, j: nat, policy: Policy, b: Bucket)
    requires Orderly(reqs, policy) && i <= j <= |reqs|
    ensures HitsBefore(reqs, i, b) <= HitsBefore(reqs, j, b)
  {
    assert reqs[..j][..i] == reqs[..i];
    HistoryOnlyGrows(reqs[..j], i, policy, b);
  }

  lemma HintNotPassed(before: seq<int>, after: seq<int>, c: WindowCheck, oldest: int, now: int, retryAt: int)
    requires Sorted(before) && before <= after && now <= retryAt && oldest + c.window - now >= SECOND
    requires var live := Live(before, now - c.window); |live| == c.limit >= 1 && live[0] == oldest
    requires retryAt <= now + SECOND * RetryAfterSeconds(oldest, c.window, now)
    ensures |Live(after, retryAt - c.window)| >= c.limit
  {
    LiveUntilOldestLeaves(before, now - c.window, retryAt - c.window);
    MoreHitsMoreLive(before, after, retryAt - c.window);
  }

  lemma StillFull(reqs: seq<Request>, policy: Policy, i: nat, c: WindowCheck, oldest: int, j: nat)
    requires Orderly(reqs, policy) && RefusedAt(reqs, i, c, oldest) && i < j < |reqs|
    requires oldest + c.window - reqs[i].now >= SECOND
    requires reqs[j].now <= reqs[i].now + SECOND * RetryAfterSeconds(oldest, c.window, reqs[i].now)
    ensures |Live(HitsBefore(reqs, j, c.bucket), reqs[j].now - c.window)| >= c.limit
  {
    LiveWhenRefused(reqs, policy, i, c, oldest);
    SortedHistory(reqs, policy, i, c.bucket);
    HistoryGrowsBetween(reqs, i, j, policy, c.bucket);
    HintNotPassed(HitsBefore(reqs, i, c.bucket), HitsBefore(reqs, j, c.bucket),
                  c, oldest, reqs[i].now, reqs[j].now);
  }

  /** Every refusal's hint lies between one second and the window. */
  lemma RefusalHintInRange(reqs: seq<Request>, policy: Policy, i: nat, c: WindowCheck, oldest: int, windowSeconds: nat)
    requires Orderly(reqs, policy) && RefusedAt(reqs, i, c, oldest)
    requires windowSeconds >= 1 && c.window == windowSeconds * SECOND
    ensures 1 <= RetryAfterSeconds(oldest, c.window, reqs[i].now) <= windowSeconds
  {
    var hits, cutoff := HitsBefore(reqs, i, c.bucket), reqs[i].now - c.window;
    LiveWhenRefused(reqs, policy, i, c, oldest);
    SortedHistory(reqs, policy, i, c.bucket);
    OldestIsLive(hits, cutoff, reqs[i].now);
    RetryHintRange(oldest, windowSeconds, reqs[i].now);
  }

  lemma {:induction false} OldestIsLive(hits: seq<int>, cutoff: int, now: int)
    requires Sorted(hits) && AllUpTo(hits, now) && Live(hits, cutoff) != []
    ensures cutoff <= Live(hits, cutoff)[0] <= now
  {
    TrimIsLive(hits, cutoff);
    assert Live(hits, cutoff)[0] == hits[Stale(hits, cutoff)];
  }

  /**
   No early success: if at least a second remained, a later request that names the violating bucket
   is refused at every moment up to and including the hinted one, whatever else was asked meanwhile.
   */
  lemma {:induction false} RefusedUntilTheHint(
    backend: Backend, reqs: seq<Request>, policy: Policy, i: nat, c: WindowCheck, oldest: int, j: nat, k: nat)
    requires Orderly(reqs, policy) && RefusedAt(reqs, i, c, oldest)
    requires oldest + c.window - reqs[i].now >= SECOND
    requires i < j < |reqs| && k < |reqs[j].checks| && reqs[j].checks[k] == c
    requires reqs[j].now <= reqs[i].now + SECOND * RetryAfterSeconds(oldest, c.window, reqs[i].now)
    ensures Run(backend, reqs).1[j].Some?
  {
    StillFull(reqs, policy, i, c, oldest, j);
    NoRoomIsRefused(backend, reqs, policy, c, j, k);
  }

  lemma {:induction false} MoreHitsMoreLive(before: seq<int>, after: seq<int>, cutoff: int)
    requires before <= after
    ensures |Live(before, cutoff)| <= |Live(after, cutoff)|
  {
    assert after == before + after[|before|..];
    LiveOfConcat(before, after[|before|..], cutoff);
  }

  lemma HintPassed(hits: seq<int>, c: WindowCheck, oldest: int, now: int, retryAt: int)
    requires Sorted(hits) && c.window >= 0
    requires var live := Live(hits, now - c.window); |live| == c.limit >= 1 && live[0] == oldest
    requires retryAt >= now + SECOND * (RetryAfterSeconds(oldest, c.window, now) + 1)
    ensures |Live(hits, retryAt - c.window)| < c.limit
  {
    OneFewerOnceOldestLeaves(hits, now - c.window, retryAt - c.window);
  }

  lemma {:induction false} NotTheReason(history: Hits, checks: seq<WindowCheck>, now: int, k: nat)
    requires LimitsArePositive(checks) && k < |checks|
    requires |Live(Get(history, checks[k].bucket), now - checks[k].window)| < checks[k].limit
    ensures var v := Judge(history, checks, now, 0); v.Some? ==> v.value.index != k
  {
    JudgedAt(history, checks, now, 0);
  }

  lemma {:induction false} RoomIsNotTheReason(backend: Backend, reqs: seq<Request>, policy: Policy, c: WindowCheck, j: nat, k: nat)
    requires Orderly(reqs, policy) && j < |reqs| && k < |reqs[j].checks| && reqs[j].checks[k] == c
    requires |Live(HitsBefore(reqs, j, c.bucket), reqs[j].now - c.window)| < c.limit
    ensures var v := Run(backend, reqs).1[j]; v.Some? ==> v.value.index != k
  {
    NotTheReason(Run(History, reqs[..j]).0, reqs[j].checks, reqs[j].now, k);
    VerdictsAreRejections(backend, reqs, policy, j);
  }

  lemma RoomAtHint(reqs: seq<Request>, policy: Policy, i: nat, c: WindowCheck, oldest: int, retryAt: int, later: seq<int>)
    requires Orderly(reqs, policy) && RefusedAt(reqs, i, c, oldest)
    requires retryAt >= reqs[i].now + SECOND * (RetryAfterSeconds(oldest, c.window, reqs[i].now) + 1)
    requires later == HitsBefore(reqs, i, c.bucket)
    ensures |Live(later, retryAt - c.window)| < c.limit
  {
    LiveWhenRefused(reqs, policy, i, c, oldest);
    SortedHistory(reqs, policy, i, c.bucket);
    HintPassed(later, c, oldest, reqs[i].now, retryAt);
  }

  /**
   And no late one: a second after the hint, if nothing else was accepted in the violating bucket,
   that bucket has room and is not what refuses the request.
   */
  lemma {:induction false} RoomAfterTheHint(
    backend: Backend, reqs: seq<Request>, policy: Policy, i: nat, c: WindowCheck, oldest: int, j: nat, k: nat)
    requires Orderly(reqs, policy) && RefusedAt(reqs, i, c, oldest)
    requires i < j < |reqs| && k < |reqs[j].checks| && reqs[j].checks[k] == c
    requires reqs[j].now >= reqs[i].now + SECOND * (RetryAfterSeconds(oldest, c.window, reqs[i].now) + 1)
    requires HitsBefore(reqs, j, c.bucket) == HitsBefore(reqs, i, c.bucket)
    ensures var v := Run(backend, reqs).1[j]; v.Some? ==> v.value.index != k
  {
    RoomAtHint(reqs, policy, i, c, oldest, reqs[j].now, HitsBefore(reqs, j, c.bucket));
    RoomIsNotTheReason(backend, reqs, policy, c, j, k);
  }

  lemma SpacedPair(times: seq<int>, limit: nat, window: nat, i: nat, j: nat)
    requires Spaced(times, limit, window)
    ensures i + limit <= j < |times| ==> times[j] > times[i] + window
  {
  }

  lemma {:induction false} AtMostLimitLive(hits: seq<int>, quota: Quota, now: int)
    requires Sorted(hits) && AllUpTo(hits, now) && Spaced(hits, quota.limit, quota.window)
    ensures |Live(hits, now - quota.window)| <= quota.limit
  {
    TrimIsLive(hits, now - quota.window);
    var k := Stale(hits, now - quota.window);
    SpacedPair(hits, quota.limit, quota.window, k, k + quota.limit);
  }

  // ---------------------------------------------------------------------------------------------
  // Lockouts with the shipped constants
  // ---------------------------------------------------------------------------------------------

  /** Magic-link consume: failing attempts made one after the other fail at most 3 times a minute per address. */
  lemma {:induction false} ConsumeFailuresAreBounded(attempts: seq<Lockouts.Attempt<string>>, ip: string)
    requires Lockouts.Sequential(attempts)
    ensures Lockouts.Bounded(CONSUME_RULE, Lockouts.Trace(CONSUME_RULE, attempts), ip)
  {
    Lockouts.SequentialAttemptsAreBounded(CONSUME_RULE, attempts, ip);
  }

  datatype LoginAttempt = LoginAttempt(credentialIdHash: string, ipHash: string, now: int, failedAt: int)

  function PasskeyAttempts(logins: seq<LoginAttempt>): (r: seq<Lockouts.Attempt<PasskeyKey>>)
    ensures |r| == |logins|
  {
    seq(|logins|, i requires 0 <= i < |logins| =>
      Lockouts.Attempt(PasskeyKeys(logins[i].credentialIdHash, logins[i].ipHash), logins[i].now, logins[i].failedAt))
  }

  /** Passkey login: cycling addresses against one credential, or credentials from one address, is bounded all the same. */
  lemma PasskeyFailuresAreBounded(logins: seq<LoginAttempt>, key: PasskeyKey)
    requires forall i :: 0 <= i < |logins| ==> logins[i].now <= logins[i].failedAt
    requires forall i, j :: 0 <= i < j < |logins| ==> logins[i].failedAt <= logins[j].now
    ensures Lockouts.Bounded(PASSKEY_RULE, Lockouts.Trace(PASSKEY_RULE, PasskeyAttempts(logins)), key)
  {
    Lockouts.SequentialAttemptsAreBounded(PASSKEY_RULE, PasskeyAttempts(logins), key);
  }

  /**
   With up to `most` redemptions in flight from one address, `most + 2` is the exact bound on its failures in a
   minute: the limit of 3 needs them one at a time.
   */
  lemma ConsumeFailuresUnderOverlap(most: nat, ip: string, bound: int)
    requires most >= 1
    ensures (forall moves: seq<LockoutRaces.Move<string>> ::
               LockoutRaces.Fair(CONSUME_RULE, moves, ip) && LockoutRaces.AtMost(CONSUME_RULE, moves, ip, most)
               ==> LockoutRaces.FailuresAtMost(CONSUME_RULE, LockoutRaces.Play(CONSUME_RULE, moves).events, ip, bound))
       <==> bound >= most + 2
  {
    LockoutRaces.TightestBound(CONSUME_RULE, most, ip, bound);
  }

  /** The same for passkey logins, for each credential and each address. */
  lemma PasskeyFailuresUnderOverlap(most: nat, key: PasskeyKey, bound: int)
    requires most >= 1
    ensures (forall moves: seq<LockoutRaces.Move<PasskeyKey>> ::
               LockoutRaces.Fair(PASSKEY_RULE, moves, key) && LockoutRaces.AtMost(PASSKEY_RULE, moves, key, most)
               ==> LockoutRaces.FailuresAtMost(PASSKEY_RULE, LockoutRaces.Play(PASSKEY_RULE, moves).events, key, bound))
       <==> bound >= most + 2
  {
    LockoutRaces.TightestBound(PASSKEY_RULE, most, key, bound);
  }

  /** Three passkey failures within a minute lock the credential and the address for ten minutes; two lock neither. */
  lemma {:induction false} ThirdPasskeyFailureLocks(s: Lockouts.State<PasskeyKey>, credentialIdHash: string, ipHash: string, key: PasskeyKey, a: int, b: int, c: int)
    requires key == (Credential, credentialIdHash) || key == (SourceIp, ipHash)
    requires Lockouts.Failures(s, key) == [] && key !in s.lockedUntil
    requires a <= b <= c <= a + 60 * 1_000_000
    ensures var two := Lockouts.FailAll(PASSKEY_RULE, s, PasskeyKeys(credentialIdHash, ipHash), [a, b]);
      key !in two.lockedUntil
    ensures var three := Lockouts.FailAll(PASSKEY_RULE, s, PasskeyKeys(credentialIdHash, ipHash), [a, b, c]);
      key in three.lockedUntil && three.lockedUntil[key] == c + 600 * 1_000_000
  {
    Lockouts.LimitthFailureLocks(PASSKEY_RULE, s, PasskeyKeys(credentialIdHash, ipHash), [a, b], key);
    Lockouts.LimitthFailureLocks(PASSKEY_RULE, s, PasskeyKeys(credentialIdHash, ipHash), [a, b, c], key);
  }
}
