/**
 The throttle in front of the magic-link, signup, recovery and passkey-login routes: hit budgets kept
 in a window store, and failure lockouts kept in its own dictionaries. Times are microseconds.
 */
module AuthThrottle {
  import opened Prelude
  import opened Intervals
  import opened WindowStore
  import Lockouts

  const SECOND := 1_000_000
  const MINUTE := 60 * SECOND
  const HOUR := 60 * MINUTE

  const REQUEST_LIMIT := 5
  const SIGNUP_GLOBAL_LIMIT := 200
  const SIGNUP_IP_LIMIT := 5
  const SIGNUP_EMAIL_LIMIT := 3
  const RECOVER_GLOBAL_LIMIT := 200
  const RECOVER_IP_LIMIT := 10
  const RECOVER_EMAIL_LIMIT := 3
  const GLOBAL_KEY := "__global__"

  const CONSUME_RULE := Lockouts.Rule(3, MINUTE, 10 * MINUTE)
  const PASSKEY_RULE := Lockouts.Rule(3, MINUTE, 10 * MINUTE)

  // ---------------------------------------------------------------------------------------------
  // Hit budgets
  // ---------------------------------------------------------------------------------------------

  /** One budgeted call, with the caller's address and e-mail as the throttle sees them. */
  datatype Call =
    | RequestLink(ip: string, email: string)
    | SignupStart(ip: string, email: string)
    | RecoverStart(ip: string, email: string)

  function Batch(call: Call): seq<WindowCheck> {
    match call
    case RequestLink(ip, email) => [
      WindowCheck(Bucket("request:ip", ip), REQUEST_LIMIT, MINUTE),
      WindowCheck(Bucket("request:email", email), REQUEST_LIMIT, MINUTE)]
    case SignupStart(ip, email) => [
      WindowCheck(Bucket("signup_start:global", GLOBAL_KEY), SIGNUP_GLOBAL_LIMIT, HOUR),
      WindowCheck(Bucket("signup_start:ip", ip), SIGNUP_IP_LIMIT, HOUR),
      WindowCheck(Bucket("signup_start:email", email), SIGNUP_EMAIL_LIMIT, HOUR)]
    case RecoverStart(ip, email) => [
      WindowCheck(Bucket("recover_start:global", GLOBAL_KEY), RECOVER_GLOBAL_LIMIT, HOUR),
      WindowCheck(Bucket("recover_start:ip", ip), RECOVER_IP_LIMIT, HOUR),
      WindowCheck(Bucket("recover_start:email", email), RECOVER_EMAIL_LIMIT, HOUR)]
  }

  lemma ScopesDiffer()
    ensures "request:ip" != "request:email"
    ensures "signup_start:global" != "signup_start:ip" && "signup_start:global" != "signup_start:email"
    ensures "signup_start:ip" != "signup_start:email"
    ensures "recover_start:global" != "recover_start:ip" && "recover_start:global" != "recover_start:email"
    ensures "recover_start:ip" != "recover_start:email"
  {
    assert "request:ip"[8] == 'i' && "request:email"[8] == 'e';
    assert "signup_start:global"[13] == 'g' && "signup_start:ip"[13] == 'i' && "signup_start:email"[13] == 'e';
    assert "recover_start:global"[14] == 'g' && "recover_start:ip"[14] == 'i' && "recover_start:email"[14] == 'e';
  }

  lemma BatchNamesEachBucketOnce(call: Call)
    ensures Distinct(Batch(call))
  {
    ScopesDiffer();
  }

  /** The one quota each bucket is ever checked against. */
  function QuotaOf(b: Bucket): Quota {
    if b.scope == "request:ip" || b.scope == "request:email" then Quota(REQUEST_LIMIT, MINUTE)
    else if b.scope == "signup_start:global" then Quota(SIGNUP_GLOBAL_LIMIT, HOUR)
    else if b.scope == "signup_start:ip" then Quota(SIGNUP_IP_LIMIT, HOUR)
    else if b.scope == "signup_start:email" then Quota(SIGNUP_EMAIL_LIMIT, HOUR)
    else if b.scope == "recover_start:global" then Quota(RECOVER_GLOBAL_LIMIT, HOUR)
    else if b.scope == "recover_start:ip" then Quota(RECOVER_IP_LIMIT, HOUR)
    else Quota(RECOVER_EMAIL_LIMIT, HOUR)
  }

  /** `int(timedelta.total_seconds())`: truncation toward zero. */
  function WholeSeconds(micros: int): int {
    if micros >= 0 then micros / SECOND else -(-micros / SECOND)
  }

  function RetryAfterSeconds(oldest: int, window: int, now: int): int {
    var whole := WholeSeconds(oldest + window - now);
    if whole >= 1 then whole else 1
  }

  datatype Scope = Global | Ip | Email

  datatype BudgetError =
    | RateLimited(perIp: bool)
    | StartRateLimited(scope: Scope, retryAfterSeconds: int)

  /** The error a refusal is reported as. */
  function Refusal(call: Call, rejection: WindowRejection, now: int): BudgetError {
    if call.RequestLink? then RateLimited(rejection.index == 0)
    else
      StartRateLimited(if rejection.index == 0 then Global else if rejection.index == 1 then Ip else Email,
                       RetryAfterSeconds(rejection.oldestInWindow, HOUR, now))
  }

  function Told(call: Call, verdict: Verdict, now: int): Option<BudgetError> {
    if verdict.None? then None else Some(Refusal(call, verdict.value, now))
  }

  /** What one budgeted call makes of the window store's contents, and what its caller hears. */
  function Charge(kind: Backend, contents: Hits, call: Call, now: int): (Hits, Option<BudgetError>) {
    var (after, verdict) := Step(kind, contents, Batch(call), now);
    (after, Told(call, verdict, now))
  }

  // ---------------------------------------------------------------------------------------------
  // The throttle object
  // ---------------------------------------------------------------------------------------------

  datatype PasskeyScope = Credential | SourceIp

  type PasskeyKey = (PasskeyScope, string)

  function PasskeyKeys(credentialIdHash: string, ipHash: string): seq<PasskeyKey> {
    [(Credential, credentialIdHash), (SourceIp, ipHash)]
  }

  class Throttle {
    const window: Store
    var fails: map<string, seq<int>>
    var failLockedUntil: map<string, int>
    var passkeyFails: map<PasskeyKey, seq<int>>
    var passkeyLockedUntil: map<PasskeyKey, int>

    constructor (window: Store)
      ensures this.window == window && Consume() == Lockouts.State(map[], map[]) && Passkey() == Lockouts.State(map[], map[])
    {
      this.window := window;
      fails, failLockedUntil, passkeyFails, passkeyLockedUntil := map[], map[], map[], map[];
    }

    function Consume(): Lockouts.State<string>
      reads this
    {
      Lockouts.State(fails, failLockedUntil)
    }

    function Passkey(): Lockouts.State<PasskeyKey>
      reads this
    {
      Lockouts.State(passkeyFails, passkeyLockedUntil)
    }

    /** `check_request`, `check_signup_start` and `check_recover_start`. */
    method CheckBudget(call: Call, now: int) returns (error: Option<BudgetError>)
      modifies window.Repr()
      ensures (window.Contents(), error) == Charge(window.Kind(), old(window.Contents()), call, now)
    {
      BatchNamesEachBucketOnce(call);
      var rejection := window.CheckAndRecordAll(Batch(call), now);
      if rejection.Err? {
        assert false;
      }
      if rejection.value.None? {
        return None;
      }
      return Some(Refusal(call, rejection.value.value, now));
    }

    method CheckConsumeAllowed(ip: string, now: int) returns (allowed: bool)
      modifies this
      ensures (Consume(), if allowed then None else Some(ip)) == Lockouts.Check(old(Consume()), [ip], now)
      ensures Passkey() == old(Passkey())
    {
      if ip in failLockedUntil && failLockedUntil[ip] <= now {
        failLockedUntil := failLockedUntil - {ip};
      }
      return ip !in failLockedUntil;
    }

    method RecordConsumeFailure(ip: string, now: int)
      modifies this
      ensures Consume() == Lockouts.Fail(CONSUME_RULE, old(Consume()), [ip], now)
      ensures Passkey() == old(Passkey())
    {
      var bucket := EvictExpired(if ip in fails then fails[ip] else [], now, CONSUME_RULE.window);
      bucket := bucket + [now];
      if |bucket| >= CONSUME_RULE.limit {
        failLockedUntil := failLockedUntil[ip := now + CONSUME_RULE.lockout];
        bucket := [];
      }
      fails := fails[ip := bucket];
    }

    method RecordConsumeSuccess(ip: string)
      modifies this
      ensures Consume() == Lockouts.Succeed(old(Consume()), [ip])
      ensures Passkey() == old(Passkey())
    {
      assert Members([ip]) == {ip};
      fails, failLockedUntil := fails - {ip}, failLockedUntil - {ip};
    }

    method CheckPasskeyLoginAllowed(credentialIdHash: string, ipHash: string, now: int)
      returns (lockedOut: Option<PasskeyScope>)
      modifies this
      ensures var (after, blocked) := Lockouts.Check(old(Passkey()), PasskeyKeys(credentialIdHash, ipHash), now);
        && Passkey() == after
        && lockedOut == (if blocked.None? then None else Some(blocked.value.0))
      ensures Consume() == old(Consume())
    {
      var keys := PasskeyKeys(credentialIdHash, ipHash);
      for i := 0 to |keys|
        invariant Consume() == old(Consume())
        invariant Lockouts.Check(Passkey(), keys[i..], now) == Lockouts.Check(old(Passkey()), keys, now)
      {
        var key := keys[i];
        if key in passkeyLockedUntil && passkeyLockedUntil[key] <= now {
          passkeyLockedUntil := passkeyLockedUntil - {key};
        }
        if key in passkeyLockedUntil {
          return Some(key.0);
        }
        assert keys[i..][1..] == keys[i + 1..];
      }
      return None;
    }

    method RecordPasskeyLoginFailure(credentialIdHash: string, ipHash: string, now: int)
      modifies this
      ensures Passkey() == Lockouts.Fail(PASSKEY_RULE, old(Passkey()), PasskeyKeys(credentialIdHash, ipHash), now)
      ensures Consume() == old(Consume())
    {
      var keys := PasskeyKeys(credentialIdHash, ipHash);
      for i := 0 to |keys|
        invariant Consume() == old(Consume())
        invariant Lockouts.Fail(PASSKEY_RULE, Passkey(), keys[i..], now)
               == Lockouts.Fail(PASSKEY_RULE, old(Passkey()), keys, now)
      {
        var key := keys[i];
        var bucket := EvictExpired(if key in passkeyFails then passkeyFails[key] else [], now, PASSKEY_RULE.window);
        bucket := bucket + [now];
        if |bucket| >= PASSKEY_RULE.limit {
          passkeyLockedUntil := passkeyLockedUntil[key := now + PASSKEY_RULE.lockout];
          bucket := [];
        }
        passkeyFails := passkeyFails[key := bucket];
        assert keys[i..][1..] == keys[i + 1..];
      }
    }

    method RecordPasskeyLoginSuccess(credentialIdHash: string, ipHash: string)
      modifies this
      ensures Passkey() == Lockouts.Succeed(old(Passkey()), PasskeyKeys(credentialIdHash, ipHash))
      ensures Consume() == old(Consume())
    {
      var keys := PasskeyKeys(credentialIdHash, ipHash);
      for i := 0 to |keys|
        invariant Consume() == old(Consume())
        invariant Passkey() == Lockouts.Succeed(old(Passkey()), keys[..i])
      {
        passkeyFails := passkeyFails - {keys[i]};
        passkeyLockedUntil := passkeyLockedUntil - {keys[i]};
        assert Members(keys[..i + 1]) == Members(keys[..i]) + {keys[i]};
      }
      assert keys[..|keys|] == keys;
    }
  }

  /** `_evict_expired`: drop hits older than `now - window` from the left. */
  method EvictExpired(bucket: seq<int>, now: int, window: int) returns (kept: seq<int>)
    ensures kept == TrimFront(bucket, now - window)
  {
    var cutoff := now - window;
    kept := bucket;
    while kept != [] && kept[0] < cutoff
      invariant TrimFront(kept, cutoff) == TrimFront(bucket, cutoff)
      decreases |kept|
    {
      kept := kept[1..];
    }
  }
}
