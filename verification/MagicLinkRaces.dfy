/**
 Consumers and minters of magic links on one database: the conditional update takes the nonce's row
 lock and holds it until commit or rollback, and nothing is visible to others before commit.
 */
module MagicLinkRaces {
  import opened Prelude
  import opened MagicLink
  import Lockouts

  datatype Phase =
    | Waiting
    | Holding(claims: Claims)
    | Passed(claims: Claims, outcome: Outcome)
    | Finished(result: Result<Outcome, Error>)
    | RolledBack

  /** `locks` is the throttle as this consumer found it. */
  datatype Consumer = Consumer(attempt: Attempt, locks: Lockouts.State<string>, phase: Phase)

  datatype Entry =
    | Minting(request: LinkRequest)
    | Redeeming(attempt: Attempt, claims: Claims)

  datatype System = System(table: Nonces, consumers: seq<Consumer>, log: seq<Entry>)

  // ---------------------------------------------------------------------------------------------
  // Steps
  // ---------------------------------------------------------------------------------------------

  predicate HoldsRow(c: Consumer, jti: string) {
    (c.phase.Holding? || c.phase.Passed?) && c.phase.claims.jti == jti
  }

  /** No other open transaction holds the row. */
  ghost predicate Free(s: System, i: nat, jti: string) {
    forall j :: 0 <= j < |s.consumers| && j != i ==> !HoldsRow(s.consumers[j], jti)
  }

  function Move(s: System, i: nat, phase: Phase): System
    requires i < |s.consumers|
  {
    s.(consumers := s.consumers[i := s.consumers[i].(phase := phase)])
  }

  /** The next step of consumer `i`: admit and claim, then inspect, then commit. None while blocked or done. */
  ghost function Advance(loads: Loads, s: System, i: nat): Option<System>
    requires i < |s.consumers|
  {
    var c := s.consumers[i];
    match c.phase
    case Waiting =>
      var claims := Admit(loads, c.locks, c.attempt);
      if claims.Err? then Some(Move(s, i, Finished(Err(claims.error))))
      else if !Free(s, i, claims.value.jti) then None
      else if Pending(s.table, claims.value.jti) then Some(Move(s, i, Holding(claims.value)))
      else Some(Move(s, i, Finished(Err(AlreadyConsumed))))
    case Holding(claims) =>
      if claims.jti !in s.table then None
      else
        var verdict := Inspect(s.table[claims.jti], claims, c.attempt.now);
        if verdict.Ok? then Some(Move(s, i, Passed(claims, verdict.value))) else Some(Move(s, i, Finished(verdict)))
    case Passed(claims, outcome) =>
      Some(Move(s, i, Finished(Ok(outcome))).(table := Claim(s.table, claims.jti, c.attempt.now),
                                              log := s.log + [Redeeming(c.attempt, claims)]))
    case Finished(_) => None
    case RolledBack => None
  }

  ghost predicate Next(loads: Loads, s: System, s': System) {
    || (exists i :: 0 <= i < |s.consumers| && Advance(loads, s, i) == Some(s'))
    || (exists i :: 0 <= i < |s.consumers| && Open(s.consumers[i]) && s' == Move(s, i, RolledBack))
    || (exists r :: Mints(s.table, r) && s' == AfterMint(s, r))
  }

  predicate Open(c: Consumer) {
    !c.phase.Finished? && !c.phase.RolledBack?
  }

  /** The request commits a nonce. */
  predicate Mints(table: Nonces, r: LinkRequest) {
    Mint(table, r).1.Ok? && Mint(table, r).1.value.Some?
  }

  function AfterMint(s: System, r: LinkRequest): System {
    s.(table := Mint(s.table, r).0, log := s.log + [Minting(r)])
  }

  ghost predicate Initial(s: System) {
    s.table == map[] && s.log == [] && forall i :: 0 <= i < |s.consumers| ==> s.consumers[i].phase.Waiting?
  }

  ghost predicate IsRun(loads: Loads, states: seq<System>) {
    && states != [] && Initial(states[0])
    && (forall k :: 0 <= k < |states| - 1 ==> Next(loads, states[k], states[k + 1]))
  }

  // ---------------------------------------------------------------------------------------------
  // What the log says about a nonce
  // ---------------------------------------------------------------------------------------------

  function Redemptions(log: seq<Entry>, jti: string): nat {
    if log == [] then 0
    else
      var e, earlier := log[|log| - 1], Redemptions(log[..|log| - 1], jti);
      if e.Redeeming? && e.claims.jti == jti then earlier + 1 else earlier
  }

  /** The table is what the committed entries make of an empty one, taken in commit order. */
  function Replay(log: seq<Entry>): Nonces {
    if log == [] then map[]
    else
      var e, earlier := log[|log| - 1], Replay(log[..|log| - 1]);
      match e
      case Minting(r) => Mint(earlier, r).0
      case Redeeming(a, c) => Claim(earlier, c.jti, a.now)
  }

  /** `e` redeems what `m` requested, strictly inside the purpose's ceiling. */
  predicate Redeems(e: Entry, m: Entry) {
    && e.Redeeming? && m.Minting?
    && m.request.jti == e.claims.jti && m.request.purpose == e.claims.purpose == e.attempt.expected
    && m.request.subjectId == Some(e.claims.subjectId)
    && m.request.purpose in CEILINGS && e.attempt.now < m.request.now + CEILINGS[m.request.purpose]
  }

  /** The minting that put `jti` on disk, as the row still tells it. */
  ghost predicate MintedAs(log: seq<Entry>, jti: string, row: Nonce) {
    exists m :: 0 <= m < |log| && MintedBy(log[m], jti, row)
  }

  predicate MintedBy(e: Entry, jti: string, row: Nonce) {
    && e.Minting? && e.request.jti == jti && e.request.purpose in CEILINGS && e.request.subjectId.Some?
    && row.(consumedAt := None) == NonceFor(e.request, e.request.subjectId.value)
  }

  ghost predicate EachRedeemedAsMinted(log: seq<Entry>) {
    forall k :: 0 <= k < |log| && log[k].Redeeming? ==> exists m :: 0 <= m < k && Redeems(log[k], log[m])
  }

  ghost predicate RowOk(s: System, jti: string) {
    if jti in s.table then
      MintedAs(s.log, jti, s.table[jti]) && Redemptions(s.log, jti) == (if s.table[jti].consumedAt.Some? then 1 else 0)
    else Redemptions(s.log, jti) == 0
  }

  ghost predicate ConsumerOk(loads: Loads, s: System, i: nat)
    requires i < |s.consumers|
  {
    var c := s.consumers[i];
    c.phase.Holding? || c.phase.Passed? ==>
      && Admit(loads, c.locks, c.attempt) == Ok(c.phase.claims)
      && Pending(s.table, c.phase.claims.jti) && Free(s, i, c.phase.claims.jti)
      && (c.phase.Passed? ==> Inspect(s.table[c.phase.claims.jti], c.phase.claims, c.attempt.now) == Ok(c.phase.outcome))
  }

  ghost predicate Inv(loads: Loads, s: System) {
    && (forall i :: 0 <= i < |s.consumers| ==> ConsumerOk(loads, s, i))
    && (forall jti :: RowOk(s, jti))
    && s.table == Replay(s.log)
    && EachRedeemedAsMinted(s.log)
  }

  // ---------------------------------------------------------------------------------------------
  // Every step keeps it
  // ---------------------------------------------------------------------------------------------

  lemma AdmittedPurpose(loads: Loads, locks: Lockouts.State<string>, a: Attempt)
    requires Admit(loads, locks, a).Ok?
    ensures Admit(loads, locks, a).value.purpose == a.expected
  {
  }

  /** A step that touches neither table nor log. */
  lemma MoveKeepsInv(loads: Loads, s: System, i: nat, phase: Phase)
    requires Inv(loads, s) && i < |s.consumers|
    requires ConsumerOk(loads, Move(s, i, phase), i)
    requires forall jti :: HoldsRow(Move(s, i, phase).consumers[i], jti) ==> Free(s, i, jti)
    ensures Inv(loads, Move(s, i, phase))
  {
    var s' := Move(s, i, phase);
    forall j | 0 <= j < |s'.consumers| ensures ConsumerOk(loads, s', j) {
      assert ConsumerOk(loads, s, j);
      if j != i && (s.consumers[j].phase.Holding? || s.consumers[j].phase.Passed?) {
        var jti := s.consumers[j].phase.claims.jti;
        assert HoldsRow(s.consumers[j], jti);
        assert !HoldsRow(s'.consumers[i], jti);
      }
    }
    forall jti ensures RowOk(s', jti) { assert RowOk(s, jti); }
  }

  lemma {:induction false} RedemptionsAfter(log: seq<Entry>, e: Entry, jti: string)
    ensures Redemptions(log + [e], jti) == Redemptions(log, jti) + if e.Redeeming? && e.claims.jti == jti then 1 else 0
  {
    assert (log + [e])[..|log|] == log;
  }

  lemma StillMinted(log: seq<Entry>, e: Entry, jti: string, row: Nonce, row': Nonce)
    requires MintedAs(log, jti, row) && row'.(consumedAt := None) == row.(consumedAt := None)
    ensures MintedAs(log + [e], jti, row')
  {
    var m :| 0 <= m < |log| && MintedBy(log[m], jti, row);
    assert MintedBy((log + [e])[m], jti, row');
  }

  lemma RedeemedAfter(log: seq<Entry>, e: Entry)
    requires EachRedeemedAsMinted(log)
    requires e.Redeeming? ==> exists m :: 0 <= m < |log| && Redeems(e, log[m])
    ensures EachRedeemedAsMinted(log + [e])
  {
    var log' := log + [e];
    forall k | 0 <= k < |log'| && log'[k].Redeeming? ensures exists m :: 0 <= m < k && Redeems(log'[k], log'[m]) {
      var m :| 0 <= m < k && Redeems(log'[k], log[m]);
      assert Redeems(log'[k], log'[m]);
    }
  }

  /** A minting names a nonce that nobody can hold yet. */
  lemma MintKeepsInv(loads: Loads, s: System, r: LinkRequest)
    requires Inv(loads, s) && Mints(s.table, r)
    ensures Inv(loads, AfterMint(s, r))
  {
    var s' := AfterMint(s, r);
    assert s'.log[..|s.log|] == s.log;
    forall j | 0 <= j < |s'.consumers| ensures ConsumerOk(loads, s', j) {
      assert ConsumerOk(loads, s, j);
      assert forall jti :: Free(s, j, jti) ==> Free(s', j, jti);
    }
    forall jti ensures RowOk(s', jti) {
      assert RowOk(s, jti);
      RedemptionsAfter(s.log, Minting(r), jti);
      if jti == r.jti {
        assert MintedBy(s'.log[|s.log|], jti, s'.table[jti]);
      } else if jti in s.table {
        StillMinted(s.log, Minting(r), jti, s.table[jti], s'.table[jti]);
      }
    }
    RedeemedAfter(s.log, Minting(r));
  }

  /** A consumer that passed inspection redeems what was requested, in time. */
  lemma PassedRedeems(loads: Loads, s: System, i: nat)
    requires Inv(loads, s) && i < |s.consumers| && s.consumers[i].phase.Passed?
    ensures exists m :: 0 <= m < |s.log| && Redeems(Redeeming(s.consumers[i].attempt, s.consumers[i].phase.claims), s.log[m])
  {
    var c := s.consumers[i];
    var claims := c.phase.claims;
    assert ConsumerOk(loads, s, i) && RowOk(s, claims.jti);
    AdmittedPurpose(loads, c.locks, c.attempt);
    var row := s.table[claims.jti];
    var m :| 0 <= m < |s.log| && MintedBy(s.log[m], claims.jti, row);
    var r := s.log[m].request;
    assert row.expiresAt == ExpiresAt(r) && row.purpose == r.purpose && row.subjectId == r.subjectId.value;
    assert Redeems(Redeeming(c.attempt, claims), s.log[m]);
  }

  /** No other consumer is looking at the row a commit spends. */
  lemma CommitKeepsConsumer(loads: Loads, s: System, i: nat, s': System, j: nat)
    requires i < |s.consumers| && s.consumers[i].phase.Passed? && Advance(loads, s, i) == Some(s')
    requires j < |s.consumers| && ConsumerOk(loads, s, i) && ConsumerOk(loads, s, j)
    ensures ConsumerOk(loads, s', j)
  {
    var c := s.consumers[i];
    assert HoldsRow(c, c.phase.claims.jti);
    assert forall jti :: Free(s, j, jti) ==> Free(s', j, jti);
  }

  lemma CommitKeepsRow(s: System, e: Entry, s': System, jti: string)
    requires e.Redeeming? && Pending(s.table, e.claims.jti) && s'.log == s.log + [e]
    requires s'.table == Claim(s.table, e.claims.jti, e.attempt.now) && RowOk(s, jti)
    ensures RowOk(s', jti)
  {
    RedemptionsAfter(s.log, e, jti);
    if jti in s.table { StillMinted(s.log, e, jti, s.table[jti], s'.table[jti]); }
  }

  lemma CommitKeepsInv(loads: Loads, s: System, i: nat, s': System)
    requires Inv(loads, s) && i < |s.consumers| && s.consumers[i].phase.Passed? && Advance(loads, s, i) == Some(s')
    ensures Inv(loads, s')
  {
    var e := Redeeming(s.consumers[i].attempt, s.consumers[i].phase.claims);
    assert ConsumerOk(loads, s, i);
    assert s'.log[..|s.log|] == s.log;
    forall j | 0 <= j < |s'.consumers| ensures ConsumerOk(loads, s', j) {
      CommitKeepsConsumer(loads, s, i, s', j);
    }
    forall jti ensures RowOk(s', jti) {
      assert RowOk(s, jti);
      CommitKeepsRow(s, e, s', jti);
    }
    PassedRedeems(loads, s, i);
    RedeemedAfter(s.log, e);
  }

  lemma AdvanceKeepsInv(loads: Loads, s: System, i: nat, s': System)
    requires Inv(loads, s) && i < |s.consumers| && Advance(loads, s, i) == Some(s')
    ensures Inv(loads, s')
  {
    if s.consumers[i].phase.Passed? {
      CommitKeepsInv(loads, s, i, s');
    } else {
      var phase := s'.consumers[i].phase;
      assert ConsumerOk(loads, s, i);
      assert s' == Move(s, i, phase);
      forall jti | Free(s, i, jti) ensures Free(s', i, jti) {}
      MoveKeepsInv(loads, s, i, phase);
    }
  }

  lemma NextKeepsInv(loads: Loads, s: System, s': System)
    requires Inv(loads, s) && Next(loads, s, s')
    ensures Inv(loads, s')
  {
    if i :| 0 <= i < |s.consumers| && Advance(loads, s, i) == Some(s') {
      AdvanceKeepsInv(loads, s, i, s');
    } else if i :| 0 <= i < |s.consumers| && Open(s.consumers[i]) && s' == Move(s, i, RolledBack) {
      MoveKeepsInv(loads, s, i, RolledBack);
    } else {
      var r :| Mints(s.table, r) && s' == AfterMint(s, r);
      MintKeepsInv(loads, s, r);
    }
  }

  lemma {:induction false} RunKeepsInv(loads: Loads, states: seq<System>)
    requires IsRun(loads, states)
    ensures Inv(loads, states[|states| - 1])
  {
    var n := |states| - 1;
    if n > 0 {
      RunKeepsInv(loads, states[..n]);
      assert Next(loads, states[n - 1], states[n]);
      NextKeepsInv(loads, states[n - 1], states[n]);
    }
  }

  // ---------------------------------------------------------------------------------------------
  // What runs promise
  // ---------------------------------------------------------------------------------------------

  lemma {:induction false} TwoEntriesCountTwice(log: seq<Entry>, jti: string, j: nat, k: nat)
    requires j < k < |log|
    requires log[j].Redeeming? && log[k].Redeeming? && log[j].claims.jti == jti == log[k].claims.jti
    ensures Redemptions(log, jti) >= 2
  {
    var n := |log| - 1;
    if k < n {
      TwoEntriesCountTwice(log[..n], jti, j, k);
    } else {
      OneEntryCounts(log[..n], jti, j);
    }
  }

  lemma {:induction false} OneEntryCounts(log: seq<Entry>, jti: string, j: nat)
    requires j < |log| && log[j].Redeeming? && log[j].claims.jti == jti
    ensures Redemptions(log, jti) >= 1
  {
    var n := |log| - 1;
    if j < n { OneEntryCounts(log[..n], jti, j); }
  }

  /** At most one consume of a nonce ever commits. */
  lemma AtMostOneRedemption(loads: Loads, states: seq<System>, j: nat, k: nat)
    requires IsRun(loads, states)
    requires var log := states[|states| - 1].log; j < k < |log| && log[j].Redeeming? && log[k].Redeeming?
    ensures var log := states[|states| - 1].log; log[j].claims.jti != log[k].claims.jti
  {
    var s := states[|states| - 1];
    RunKeepsInv(loads, states);
    var jti := s.log[j].claims.jti;
    assert RowOk(s, jti);
    if jti == s.log[k].claims.jti {
      TwoEntriesCountTwice(s.log, jti, j, k);
    }
  }

  /** What commits was requested earlier for that purpose and subject, and is redeemed before the ceiling. */
  lemma RedeemedAsRequested(loads: Loads, states: seq<System>, k: nat)
    requires IsRun(loads, states)
    requires var log := states[|states| - 1].log; k < |log| && log[k].Redeeming?
    ensures var log := states[|states| - 1].log; exists m :: 0 <= m < k && Redeems(log[k], log[m])
  {
    RunKeepsInv(loads, states);
  }

  /**
   Win or lose, a consumer is told, at the step that finishes it, what `ConsumeLink` run alone would tell it
   against the committed table; and the table changes exactly as that run alone would change it.
   */
  lemma EveryOutcomeIsConsume(loads: Loads, states: seq<System>, i: nat, s': System)
    requires IsRun(loads, states)
    requires i < |states[|states| - 1].consumers| && Advance(loads, states[|states| - 1], i) == Some(s')
    ensures var s, c := states[|states| - 1], states[|states| - 1].consumers[i];
      if s'.consumers[i].phase.Finished? then
        && s'.consumers[i].phase.result == Consume(loads, c.locks, s.table, c.attempt)
        && s'.table == Spent(loads, c.locks, s.table, c.attempt)
      else s'.table == s.table
  {
    RunKeepsInv(loads, states);
    var s := states[|states| - 1];
    assert ConsumerOk(loads, s, i);
  }

  /** A consumer waits only for one that can itself move. */
  lemma SomeoneCanStep(loads: Loads, states: seq<System>, i: nat)
    requires IsRun(loads, states)
    requires i < |states[|states| - 1].consumers| && Open(states[|states| - 1].consumers[i])
    ensures var s := states[|states| - 1]; exists j :: 0 <= j < |s.consumers| && Advance(loads, s, j).Some?
  {
    RunKeepsInv(loads, states);
    var s := states[|states| - 1];
    assert ConsumerOk(loads, s, i);
    if Advance(loads, s, i).None? {
      var jti := Admit(loads, s.consumers[i].locks, s.consumers[i].attempt).value.jti;
      var j :| 0 <= j < |s.consumers| && j != i && HoldsRow(s.consumers[j], jti);
      assert ConsumerOk(loads, s, j);
      assert Advance(loads, s, j).Some?;
    }
  }
}
