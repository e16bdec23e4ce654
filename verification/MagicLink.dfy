/**
 Magic links: minting a single-use nonce, previewing it, and redeeming it. Times are microseconds; a
 token's `exp` claim is whole seconds.
 */
module MagicLink {
  import opened Prelude
  import opened Json
  import opened AuthThrottle
  import Lockouts

  /** The purposes, each with the longest life a link for it may have. */
  const CEILINGS: map<string, int> := map[
    "signup_verify" := 15 * MINUTE,
    "recover_passkey" := 10 * MINUTE,
    "email_change_confirm" := 15 * MINUTE,
    "email_change_revert" := 72 * HOUR,
    "grant_invite" := 24 * HOUR,
    "workspace_verify_ownership" := 15 * MINUTE]

  datatype Nonce = Nonce(purpose: string, subjectId: string, consumedAt: Option<int>, expiresAt: int,
                         ipHash: string, emailHash: string, createdAt: int)

  type Nonces = map<string, Nonce>

  datatype Error = InvalidToken | TokenExpired | PurposeMismatch | AlreadyConsumed | ConsumeLockout

  datatype Outcome = Outcome(purpose: string, subjectId: string, emailHash: string, ipHash: string)

  datatype Claims = Claims(purpose: string, subjectId: string, jti: string)

  datatype Attempt = Attempt(token: string, expected: string, ip: string, now: int)

  /** The signature check: the payload of a token that verifies. */
  type Loads = string -> Option<Value>

  // ---------------------------------------------------------------------------------------------
  // Reading a token
  // ---------------------------------------------------------------------------------------------

  /** Python counts a bool as an int. */
  function AsInt(v: Value): Option<int> {
    if v.Int? then Some(v.n) else if v.Bool? then Some(if v.b then 1 else 0) else None
  }

  lemma NumbersAreIntsAndBools(v: Value, n: int)
    ensures AsInt(v) == Some(n) <==> v == Int(n) || (v == Bool(true) && n == 1) || (v == Bool(false) && n == 0)
  {
  }

  function Unseal(loads: Loads, token: string, now: int): Result<Fields, Error> {
    var data := loads(token);
    if data.None? || !data.value.Object? then Err(InvalidToken)
    else
      var fields := data.value.fields;
      if "purpose" !in fields || "subject_id" !in fields || "jti" !in fields || "exp" !in fields then Err(InvalidToken)
      else if AsInt(fields["exp"]).None? then Err(InvalidToken)
      else if AsInt(fields["exp"]).value * SECOND <= now then Err(TokenExpired)
      else Ok(fields)
  }

  function ReadClaims(loads: Loads, a: Attempt): Result<Claims, Error> {
    var payload := Unseal(loads, a.token, a.now);
    if payload.Err? then Err(payload.error)
    else
      var purpose, jti, subject :=
        Lookup(payload.value, "purpose"), Lookup(payload.value, "jti"), Lookup(payload.value, "subject_id");
      if !purpose.Str? then Err(InvalidToken)
      else if purpose.s != a.expected then Err(PurposeMismatch)
      else if !jti.Str? || !subject.Str? then Err(InvalidToken)
      else Ok(Claims(purpose.s, subject.s, jti.s))
  }

  /** The gate that peek and consume share, up to the first look at the nonce table. */
  function Admit(loads: Loads, locks: Lockouts.State<string>, a: Attempt): Result<Claims, Error> {
    if a.expected !in CEILINGS then Err(InvalidToken)
    else if Lockouts.Check(locks, [a.ip], a.now).1.Some? then Err(ConsumeLockout)
    else ReadClaims(loads, a)
  }

  // ---------------------------------------------------------------------------------------------
  // Peek and consume
  // ---------------------------------------------------------------------------------------------

  function Disagreement(row: Nonce, c: Claims): Option<Error> {
    if row.purpose != c.purpose || row.subjectId != c.subjectId then Some(InvalidToken) else None
  }

  function OutcomeOf(row: Nonce): Outcome {
    Outcome(row.purpose, row.subjectId, row.emailHash, row.ipHash)
  }

  /** Expiry is looked at before consumption. */
  function Preview(nonces: Nonces, c: Claims, now: int): Result<Outcome, Error> {
    if c.jti !in nonces then Err(AlreadyConsumed)
    else
      var row := nonces[c.jti];
      if row.expiresAt <= now then Err(TokenExpired)
      else if row.consumedAt.Some? then Err(AlreadyConsumed)
      else if Disagreement(row, c).Some? then Err(Disagreement(row, c).value)
      else Ok(OutcomeOf(row))
  }

  predicate Pending(nonces: Nonces, jti: string) {
    jti in nonces && nonces[jti].consumedAt.None?
  }

  /** The conditional update. */
  function Claim(nonces: Nonces, jti: string, now: int): Nonces {
    if Pending(nonces, jti) then nonces[jti := nonces[jti].(consumedAt := Some(now))] else nonces
  }

  /** What a consumer says of a row it has claimed. */
  function Inspect(row: Nonce, c: Claims, now: int): Result<Outcome, Error> {
    if row.expiresAt <= now then Err(TokenExpired)
    else if Disagreement(row, c).Some? then Err(Disagreement(row, c).value)
    else Ok(OutcomeOf(row))
  }

  /** Consumption is looked at, and claimed, before expiry. */
  function Redeem(nonces: Nonces, c: Claims, now: int): Result<Outcome, Error> {
    if Pending(nonces, c.jti) then Inspect(nonces[c.jti], c, now) else Err(AlreadyConsumed)
  }

  function Peek(loads: Loads, locks: Lockouts.State<string>, nonces: Nonces, a: Attempt): Result<Outcome, Error> {
    var claims := Admit(loads, locks, a);
    if claims.Err? then Err(claims.error) else Preview(nonces, claims.value, a.now)
  }

  function Consume(loads: Loads, locks: Lockouts.State<string>, nonces: Nonces, a: Attempt): Result<Outcome, Error> {
    var claims := Admit(loads, locks, a);
    if claims.Err? then Err(claims.error) else Redeem(nonces, claims.value, a.now)
  }

  /** The nonce a successful consume flips. */
  function Spent(loads: Loads, locks: Lockouts.State<string>, nonces: Nonces, a: Attempt): Nonces {
    if Consume(loads, locks, nonces, a).Ok? then Claim(nonces, Admit(loads, locks, a).value.jti, a.now) else nonces
  }

  /** The one case in which preview and redemption report different errors. */
  predicate SpentAndLapsed(loads: Loads, locks: Lockouts.State<string>, nonces: Nonces, a: Attempt) {
    var claims := Admit(loads, locks, a);
    claims.Ok? && claims.value.jti in nonces
      && nonces[claims.value.jti].consumedAt.Some? && nonces[claims.value.jti].expiresAt <= a.now
  }

  lemma PeekAgreesWithConsume(loads: Loads, locks: Lockouts.State<string>, nonces: Nonces, a: Attempt)
    ensures var peek, consume := Peek(loads, locks, nonces, a), Consume(loads, locks, nonces, a);
      && (peek.Ok? <==> consume.Ok?)
      && (peek == consume <==> !SpentAndLapsed(loads, locks, nonces, a))
      && (peek != consume ==> peek == Err(TokenExpired) && consume == Err(AlreadyConsumed))
  {
    var claims := Admit(loads, locks, a);
    if claims.Ok? && claims.value.jti in nonces {
      var row := nonces[claims.value.jti];
      assert Pending(nonces, claims.value.jti) <==> row.consumedAt.None?;
    }
  }

  /** A redeemed token is never redeemed again, by anyone, at any time. */
  lemma ConsumedStaysConsumed(loads: Loads, locks: Lockouts.State<string>, nonces: Nonces, a: Attempt,
                              locks': Lockouts.State<string>, b: Attempt)
    requires Consume(loads, locks, nonces, a).Ok? && Admit(loads, locks', b).Ok?
    requires Admit(loads, locks', b).value.jti == Admit(loads, locks, a).value.jti
    ensures Consume(loads, locks', Spent(loads, locks, nonces, a), b) == Err(AlreadyConsumed)
    ensures Peek(loads, locks', Spent(loads, locks, nonces, a), b).Err?
  {
  }

  /** The token verifies and says this of itself, with an expiry still ahead. */
  predicate Says(loads: Loads, a: Attempt, purpose: string, subjectId: string, jti: string) {
    && loads(a.token).Some? && loads(a.token).value.Object?
    && var fields := loads(a.token).value.fields;
       && "purpose" in fields && fields["purpose"] == Str(purpose)
       && "subject_id" in fields && fields["subject_id"] == Str(subjectId)
       && "jti" in fields && fields["jti"] == Str(jti)
       && "exp" in fields && AsInt(fields["exp"]).Some? && AsInt(fields["exp"]).value * 1_000_000 > a.now
  }

  /** The row is this link's: not spent, not lapsed, and minted for the purpose and subject. */
  predicate Redeemable(nonces: Nonces, purpose: string, subjectId: string, jti: string, now: int) {
    && jti in nonces && nonces[jti].consumedAt == None && nonces[jti].expiresAt > now
    && nonces[jti].purpose == purpose && nonces[jti].subjectId == subjectId
  }

  lemma {:induction false} GateIff(locks: Lockouts.State<string>, ip: string, now: int)
    ensures Lockouts.Check(locks, [ip], now).1.Some? <==> ip in locks.lockedUntil && locks.lockedUntil[ip] > now
  {
    assert [ip][1..] == [];
  }

  /**
   A link redeems, for the e-mail and address it was minted for, exactly when the purpose is known and the one asked
   for, the address is not locked out, the token verifies and is in time, and its nonce is there, unspent and agrees.
   */
  lemma RedeemsIff(loads: Loads, locks: Lockouts.State<string>, nonces: Nonces, a: Attempt, o: Outcome)
    ensures Consume(loads, locks, nonces, a) == Ok(o)
       <==> && a.expected in CEILINGS && !(a.ip in locks.lockedUntil && locks.lockedUntil[a.ip] > a.now)
            && o.purpose == a.expected
            && exists jti :: Says(loads, a, o.purpose, o.subjectId, jti) && Redeemable(nonces, o.purpose, o.subjectId, jti, a.now)
                 && o.emailHash == nonces[jti].emailHash && o.ipHash == nonces[jti].ipHash
  {
    GateIff(locks, a.ip, a.now);
    if Consume(loads, locks, nonces, a) == Ok(o) {
      var c := ReadClaims(loads, a).value;
      assert Says(loads, a, c.purpose, c.subjectId, c.jti);
      assert Redeemable(nonces, c.purpose, c.subjectId, c.jti, a.now);
    }
    if jti :| Says(loads, a, o.purpose, o.subjectId, jti) && Redeemable(nonces, o.purpose, o.subjectId, jti, a.now) {
      assert a.expected == o.purpose ==> ReadClaims(loads, a) == Ok(Claims(o.purpose, o.subjectId, jti));
    }
  }

  /** Which refusal a token gets that verifies and is in time, for an address that is not locked out. */
  lemma WhyRefused(
    loads: Loads, locks: Lockouts.State<string>, nonces: Nonces, a: Attempt, purpose: string, subjectId: string, jti: string)
    requires a.expected in CEILINGS && a.ip !in locks.lockedUntil && Says(loads, a, purpose, subjectId, jti)
    ensures var outcome := Consume(loads, locks, nonces, a);
      && (purpose != a.expected ==> outcome == Err(PurposeMismatch))
      && (purpose == a.expected && (jti !in nonces || nonces[jti].consumedAt != None) ==> outcome == Err(AlreadyConsumed))
      && (purpose == a.expected && jti in nonces && nonces[jti].consumedAt == None ==>
            && (nonces[jti].expiresAt <= a.now ==> outcome == Err(TokenExpired))
            && (nonces[jti].expiresAt > a.now && (nonces[jti].purpose != purpose || nonces[jti].subjectId != subjectId) ==>
                  outcome == Err(InvalidToken)))
  {
    GateIff(locks, a.ip, a.now);
  }

  /** The token's payload has the four claims, and its expiry is a number. */
  predicate HasClaims(fields: Fields) {
    "purpose" in fields && "subject_id" in fields && "jti" in fields && "exp" in fields && AsInt(fields["exp"]).Some?
  }

  /** And which a token gets that does not verify, or has lapsed. */
  lemma WhyUnreadable(loads: Loads, locks: Lockouts.State<string>, nonces: Nonces, a: Attempt)
    requires a.expected in CEILINGS && a.ip !in locks.lockedUntil
    ensures var outcome, data := Consume(loads, locks, nonces, a), loads(a.token);
      && (data == None || !data.value.Object? || !HasClaims(data.value.fields) ==> outcome == Err(InvalidToken))
      && (data.Some? && data.value.Object? && HasClaims(data.value.fields)
          && AsInt(data.value.fields["exp"]).value * 1_000_000 <= a.now ==>
            outcome == Err(TokenExpired))
  {
    GateIff(locks, a.ip, a.now);
  }

  // ---------------------------------------------------------------------------------------------
  // Minting
  // ---------------------------------------------------------------------------------------------

  datatype LinkRequest = LinkRequest(purpose: string, subjectId: Option<string>, ttl: Option<int>, jti: string,
                                     ip: string, ipHash: string, emailHash: string, now: int)

  datatype RequestError = UnknownPurpose | TooMany | DuplicateNonce

  /** The link handed back: its nonce and the payload its token carries. */
  datatype Minted = Minted(jti: string, payload: Value)

  function ExpiresAt(r: LinkRequest): (t: int)
    requires r.purpose in CEILINGS
    ensures t <= r.now + CEILINGS[r.purpose] && (r.ttl.Some? ==> t <= r.now + r.ttl.value)
    ensures t == r.now + CEILINGS[r.purpose] || (r.ttl.Some? && t == r.now + r.ttl.value)
  {
    r.now + if r.ttl.Some? && r.ttl.value < CEILINGS[r.purpose] then r.ttl.value else CEILINGS[r.purpose]
  }

  function NonceFor(r: LinkRequest, subject: string): Nonce
    requires r.purpose in CEILINGS
  {
    Nonce(r.purpose, subject, None, ExpiresAt(r), r.ipHash, r.emailHash, r.now)
  }

  function PayloadFor(r: LinkRequest, subject: string): Value
    requires r.purpose in CEILINGS
  {
    Object(map["purpose" := Str(r.purpose), "subject_id" := Str(subject), "jti" := Str(r.jti),
               "exp" := Int(WholeSeconds(ExpiresAt(r)))])
  }

  /** Requests past the rate limit. No subject means no nonce and no error. */
  function Mint(nonces: Nonces, r: LinkRequest): (Nonces, Result<Option<Minted>, RequestError>) {
    if r.purpose !in CEILINGS then (nonces, Err(UnknownPurpose))
    else if r.subjectId.None? then (nonces, Ok(None))
    else if r.jti in nonces then (nonces, Err(DuplicateNonce))
    else (nonces[r.jti := NonceFor(r, r.subjectId.value)], Ok(Some(Minted(r.jti, PayloadFor(r, r.subjectId.value)))))
  }

  /** The longest lives, in seconds. */
  lemma LongestLives()
    ensures CEILINGS.Keys == {"signup_verify", "recover_passkey", "email_change_confirm", "email_change_revert", "grant_invite",
                              "workspace_verify_ownership"}
    ensures CEILINGS["signup_verify"] == CEILINGS["email_change_confirm"] == CEILINGS["workspace_verify_ownership"] == 900_000_000
    ensures CEILINGS["recover_passkey"] == 600_000_000 && CEILINGS["grant_invite"] == 86_400_000_000
    ensures CEILINGS["email_change_revert"] == 259_200_000_000
  {
  }

  /** A request within its budget: an unknown purpose or a nonce already there is an error, nobody to send to is not. */
  lemma MintAnswers(nonces: Nonces, r: LinkRequest)
    ensures var (after, answer) := Mint(nonces, r);
      && (answer == Err(UnknownPurpose) <==> r.purpose !in CEILINGS)
      && (answer == Ok(None) <==> r.purpose in CEILINGS && r.subjectId == None)
      && (answer == Err(DuplicateNonce) <==> r.purpose in CEILINGS && r.subjectId.Some? && r.jti in nonces)
      && (answer.Ok? && answer.value.Some? ==> answer.value.value.jti == r.jti && after.Keys == nonces.Keys + {r.jti})
      && (!(answer.Ok? && answer.value.Some?) ==> after == nonces)
      && (forall jti :: jti in nonces ==> jti in after && after[jti] == nonces[jti])
  {
  }

  /** The row a request leaves: unspent, for the purpose, subject, address and e-mail it named, dated now. */
  lemma MintedRow(nonces: Nonces, r: LinkRequest)
    requires r.purpose in CEILINGS && r.subjectId.Some? && r.jti !in nonces
    ensures var after := Mint(nonces, r).0;
      r.jti in after
      && after[r.jti] == Nonce(r.purpose, r.subjectId.value, None, ExpiresAt(r), r.ipHash, r.emailHash, r.now)
  {
  }

  /** A redemption stamps its one row with its time and changes nothing else; a refusal changes nothing. */
  lemma RedemptionStampsOneRow(loads: Loads, locks: Lockouts.State<string>, nonces: Nonces, a: Attempt, jti: string)
    requires jti in nonces
    ensures var after := Spent(loads, locks, nonces, a);
      && after.Keys == nonces.Keys
      && after[jti] == if Consume(loads, locks, nonces, a).Ok? && Admit(loads, locks, a).value.jti == jti
                       then nonces[jti].(consumedAt := Some(a.now)) else nonces[jti]
  {
  }

  /** The last whole second at which a fresh link has stopped working. */
  function Deadline(r: LinkRequest): int
    requires r.purpose in CEILINGS
  {
    WholeSeconds(ExpiresAt(r)) * SECOND
  }

  /** A fresh link redeems for what was requested, up to its deadline and no later. */
  lemma {:induction false} MintedLinkRedeems(loads: Loads, locks: Lockouts.State<string>, nonces: Nonces, r: LinkRequest, a: Attempt)
    requires r.purpose in CEILINGS && r.subjectId.Some? && r.jti !in nonces && ExpiresAt(r) >= 0
    requires loads(a.token) == Some(PayloadFor(r, r.subjectId.value))
    requires a.expected == r.purpose && Lockouts.Check(locks, [a.ip], a.now).1.None?
    ensures ExpiresAt(r) - SECOND < Deadline(r) <= ExpiresAt(r)
    ensures Consume(loads, locks, Mint(nonces, r).0, a)
         == if a.now < Deadline(r) then Ok(Outcome(r.purpose, r.subjectId.value, r.emailHash, r.ipHash)) else Err(TokenExpired)
  {
    var fields := PayloadFor(r, r.subjectId.value).fields;
    assert AsInt(fields["exp"]) == Some(WholeSeconds(ExpiresAt(r)));
    assert Unseal(loads, a.token, a.now) == if a.now < Deadline(r) then Ok(fields) else Err(TokenExpired);
    if a.now < Deadline(r) {
      assert Admit(loads, locks, a) == Ok(Claims(r.purpose, r.subjectId.value, r.jti));
    }
  }

  // ---------------------------------------------------------------------------------------------
  // The routes between one commit and the next
  // ---------------------------------------------------------------------------------------------

  datatype Site = Site(locks: Lockouts.State<string>, nonces: Nonces)

  /** The attempt's look at the lockouts, which only a known purpose gets as far as. */
  function Checked(locks: Lockouts.State<string>, a: Attempt): Lockouts.State<string> {
    if a.expected in CEILINGS then Lockouts.Check(locks, [a.ip], a.now).0 else locks
  }

  /** The consume route: a success commits and forgets the address's failures, a failure counts, a lockout does not. */
  function Posted(loads: Loads, site: Site, a: Attempt, failedAt: int): (Site, Result<Outcome, Error>) {
    var outcome, checked := Consume(loads, site.locks, site.nonces, a), Checked(site.locks, a);
    (Site(if outcome.Ok? then Lockouts.Succeed(checked, [a.ip])
          else if outcome.error == ConsumeLockout then checked
          else Lockouts.Fail(CONSUME_RULE, checked, [a.ip], failedAt),
          Spent(loads, site.locks, site.nonces, a)),
     outcome)
  }

  // ---------------------------------------------------------------------------------------------
  // The service on one unit of work
  // ---------------------------------------------------------------------------------------------

  class LinkService {
    const throttle: Throttle
    const loads: Loads
    /** The rows on disk, and the rows as the open unit of work sees them. */
    var committed: Nonces
    var nonces: Nonces

    constructor (throttle: Throttle, loads: Loads)
      ensures this.throttle == throttle && this.loads == loads && committed == nonces == map[]
    {
      this.throttle, this.loads := throttle, loads;
      committed, nonces := map[], map[];
    }

    method Commit()
      modifies this
      ensures committed == nonces == old(nonces)
    {
      committed := nonces;
    }

    method Rollback()
      modifies this
      ensures nonces == committed == old(committed)
    {
      nonces := committed;
    }

    method RequestLink(r: LinkRequest) returns (link: Result<Option<Minted>, RequestError>)
      modifies this, throttle.window.Repr()
      ensures committed == old(committed)
      ensures r.purpose !in CEILINGS ==> link == Err(UnknownPurpose) && nonces == old(nonces) && throttle.window.Contents() == old(throttle.window.Contents())
      ensures r.purpose in CEILINGS ==>
        var (contents, refused) := AuthThrottle.Charge(
          throttle.window.Kind(), old(throttle.window.Contents()), AuthThrottle.RequestLink(r.ip, r.emailHash), r.now);
        && throttle.window.Contents() == contents
        && (nonces, link) == (if refused.Some? then (old(nonces), Err(TooMany)) else Mint(old(nonces), r))
    {
      if r.purpose !in CEILINGS {
        return Err(UnknownPurpose);
      }
      var refused := throttle.CheckBudget(AuthThrottle.RequestLink(r.ip, r.emailHash), r.now);
      if refused.Some? {
        return Err(TooMany);
      }
      if r.subjectId.None? {
        return Ok(None);
      }
      if r.jti in nonces {
        return Err(DuplicateNonce);
      }
      nonces := nonces[r.jti := NonceFor(r, r.subjectId.value)];
      return Ok(Some(Minted(r.jti, PayloadFor(r, r.subjectId.value))));
    }

    method PeekLink(a: Attempt) returns (outcome: Result<Outcome, Error>)
      modifies throttle
      ensures outcome == Peek(loads, old(throttle.Consume()), nonces, a)
      ensures throttle.Consume() == Checked(old(throttle.Consume()), a)
    {
      var claims := AdmitAttempt(a);
      if claims.Err? {
        return Err(claims.error);
      }
      var c := claims.value;
      if c.jti !in nonces {
        return Err(AlreadyConsumed);
      }
      var row := nonces[c.jti];
      if row.expiresAt <= a.now {
        return Err(TokenExpired);
      }
      if row.consumedAt.Some? {
        return Err(AlreadyConsumed);
      }
      if row.purpose != c.purpose {
        return Err(InvalidToken);
      }
      if row.subjectId != c.subjectId {
        return Err(InvalidToken);
      }
      return Ok(OutcomeOf(row));
    }

    method AdmitAttempt(a: Attempt) returns (claims: Result<Claims, Error>)
      modifies throttle
      ensures claims == Admit(loads, old(throttle.Consume()), a)
      ensures throttle.Consume() == Checked(old(throttle.Consume()), a)
    {
      if a.expected !in CEILINGS {
        return Err(InvalidToken);
      }
      var allowed := throttle.CheckConsumeAllowed(a.ip, a.now);
      if !allowed {
        return Err(ConsumeLockout);
      }
      return ReadClaims(loads, a);
    }

    method ClaimNonce(jti: string, now: int) returns (claimed: bool)
      modifies this
      ensures claimed == Pending(old(nonces), jti) && nonces == Claim(old(nonces), jti, now)
      ensures committed == old(committed)
    {
      claimed := jti in nonces && nonces[jti].consumedAt.None?;
      if claimed {
        nonces := nonces[jti := nonces[jti].(consumedAt := Some(now))];
      }
    }

    /** A failing consume may leave the row flipped in the unit of work; the caller rolls back. */
    method ConsumeLink(a: Attempt) returns (outcome: Result<Outcome, Error>)
      modifies this, throttle
      ensures outcome == Consume(loads, old(throttle.Consume()), old(nonces), a)
      ensures outcome.Ok? ==> nonces == Spent(loads, old(throttle.Consume()), old(nonces), a)
      ensures committed == old(committed)
      ensures throttle.Consume() == Checked(old(throttle.Consume()), a)
    {
      var claims := AdmitAttempt(a);
      if claims.Err? {
        return Err(claims.error);
      }
      var c := claims.value;
      var claimed := ClaimNonce(c.jti, a.now);
      if !claimed {
        return Err(AlreadyConsumed);
      }
      var row := nonces[c.jti];
      if row.expiresAt <= a.now {
        return Err(TokenExpired);
      }
      if row.purpose != c.purpose {
        return Err(InvalidToken);
      }
      if row.subjectId != c.subjectId {
        return Err(InvalidToken);
      }
      return Ok(OutcomeOf(row));
    }

    /** The consume route: failures roll back and count against the address, lockouts do not count. */
    method PostConsume(a: Attempt, failedAt: int) returns (outcome: Result<Outcome, Error>)
      requires nonces == committed
      modifies this, throttle
      ensures (Site(throttle.Consume(), committed), outcome) == Posted(loads, Site(old(throttle.Consume()), old(committed)), a, failedAt)
      ensures nonces == committed
    {
      outcome := ConsumeLink(a);
      if outcome.Ok? {
        throttle.RecordConsumeSuccess(a.ip);
        Commit();
      } else {
        if outcome.error != ConsumeLockout {
          throttle.RecordConsumeFailure(a.ip, failedAt);
        }
        Rollback();
      }
    }
  }
}
