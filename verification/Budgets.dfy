/**
 The budgets as their callers meet them: how many accepted calls share an address or an e-mail, which of them
 decides a refusal, and what the retry hint of that refusal is worth.
 */
module Budgets {
  import opened Prelude
  import opened Intervals
  import opened WindowStore
  import opened WindowTheorems
  import opened AuthThrottle
  import opened ThrottleTheorems

  // ---------------------------------------------------------------------------------------------
  // Any run of batches: the verdict read off the accepted hits
  // ---------------------------------------------------------------------------------------------

  /** When hits of check `k`'s bucket were accepted before request `i`. */
  function EarlierHits(backend: Backend, reqs: seq<Request>, i: nat, k: nat): seq<int>
    requires Runnable(reqs) && i < |reqs| && k < |reqs[i].checks|
  {
    AcceptedAt(reqs[..i], Run(backend, reqs[..i]).1, reqs[i].checks[k].bucket)
  }

  /** The window that ends with request `i` already holds the limit of check `k`. */
  ghost predicate Full(backend: Backend, reqs: seq<Request>, i: nat, k: nat)
    requires Runnable(reqs) && i < |reqs| && k < |reqs[i].checks|
  {
    var c := reqs[i].checks[k];
    c.window >= 0 && Crowd(EarlierHits(backend, reqs, i, k), reqs[i].now - c.window, c.window) >= c.limit
  }

  /** The earliest of the times from `cutoff` on. */
  ghost predicate EarliestFrom(times: seq<int>, cutoff: int, t: int) {
    t in times && cutoff <= t && forall u :: u in times && cutoff <= u ==> t <= u
  }

  lemma {:induction false} RunLast(kind: Backend, reqs: seq<Request>, before: seq<Request>, last: Request)
    requires Runnable(reqs) && Runnable(before) && reqs == before + [last]
    ensures LimitsArePositive(last.checks)
    ensures var (after, verdict) := Step(kind, Run(kind, before).0, last.checks, last.now);
      Run(kind, reqs) == (after, Run(kind, before).1 + [verdict])
  {
    assert reqs[..|reqs| - 1] == before && reqs[|reqs| - 1] == last;
  }

  lemma {:induction false} EarlierHitsAreHistory(backend: Backend, reqs: seq<Request>, policy: Policy, i: nat, k: nat)
    requires Orderly(reqs, policy) && i < |reqs| && k < |reqs[i].checks|
    ensures EarlierHits(backend, reqs, i, k) == HitsBefore(reqs, i, reqs[i].checks[k].bucket)
  {
    PrefixIsOrderly(reqs, policy, i);
    RunTracks(backend, reqs[..i], policy, if i == 0 then 0 else reqs[0].now);
    HistoryIsWhatWasAccepted(reqs[..i], reqs[i].checks[k].bucket);
  }

  lemma {:induction false} StaleOnwards(hits: seq<int>, cutoff: int, window: nat)
    requires Sorted(hits) && AllUpTo(hits, cutoff + window)
    ensures Crowd(hits, cutoff, window) == |hits| - Stale(hits, cutoff)
  {
    var k := Stale(hits, cutoff);
    var inside, range := Inside(hits, cutoff, cutoff + window), Range(k, |hits| - k);
    forall i: nat ensures i in inside <==> i in range {
      if k <= i < |hits| { assert hits[k] <= hits[i] <= cutoff + window; }
    }
    assert inside == range;
  }

  lemma {:induction false} FirstKeptIsEarliest(hits: seq<int>, cutoff: int, k: nat)
    requires Sorted(hits) && k == Stale(hits, cutoff) < |hits|
    ensures EarliestFrom(hits, cutoff, hits[k])
  {
    forall u | u in hits && cutoff <= u ensures hits[k] <= u {
      var i :| 0 <= i < |hits| && hits[i] == u;
      assert i >= k;
    }
  }

  /** On sorted hits up to now, what is live is what the window holds, and it starts with the earliest of them. */
  lemma {:induction false} LiveIsCrowd(hits: seq<int>, cutoff: int, window: nat)
    requires Sorted(hits) && AllUpTo(hits, cutoff + window)
    ensures |Live(hits, cutoff)| == Crowd(hits, cutoff, window)
    ensures Live(hits, cutoff) != [] ==> EarliestFrom(hits, cutoff, Live(hits, cutoff)[0])
  {
    TrimIsLive(hits, cutoff);
    StaleOnwards(hits, cutoff, window);
    if Stale(hits, cutoff) < |hits| { FirstKeptIsEarliest(hits, cutoff, Stale(hits, cutoff)); }
  }

  lemma {:induction false} FullIsLive(backend: Backend, reqs: seq<Request>, policy: Policy, i: nat, k: nat)
    requires Orderly(reqs, policy) && i < |reqs| && k < |reqs[i].checks|
    ensures var c := reqs[i].checks[k]; var live := Live(HitsBefore(reqs, i, c.bucket), reqs[i].now - c.window);
      && c.window >= 0 && (Full(backend, reqs, i, k) <==> |live| >= c.limit)
      && (live != [] ==> EarliestFrom(EarlierHits(backend, reqs, i, k), reqs[i].now - c.window, live[0]))
  {
    var c := reqs[i].checks[k];
    assert WellFormed(reqs[i].checks, policy);
    EarlierHitsAreHistory(backend, reqs, policy, i, k);
    SortedHistory(reqs, policy, i, c.bucket);
    LiveIsCrowd(HitsBefore(reqs, i, c.bucket), reqs[i].now - c.window, c.window);
  }

  lemma {:induction false} JudgedFirst(history: Hits, checks: seq<WindowCheck>, now: int, from: nat)
    requires LimitsArePositive(checks) && from <= |checks|
    ensures var v := Judge(history, checks, now, from);
      v.Some? ==> v.value.index <= |checks| && forall k :: from <= k < v.value.index ==>
         |Live(Get(history, checks[k].bucket), now - checks[k].window)| < checks[k].limit
    decreases |checks| - from
  {
    if from < |checks| { JudgedFirst(history, checks, now, from + 1); }
  }

  /** The verdict on the history, with full windows told by live hits. */
  lemma {:induction false} JudgeIsFirstFull(history: Hits, checks: seq<WindowCheck>, now: int)
    requires LimitsArePositive(checks)
    ensures var v := Judge(history, checks, now, 0);
      && (v.None? <==> forall k :: 0 <= k < |checks| ==> !LiveFull(history, checks[k], now))
      && (v.Some? ==>
            && v.value.index < |checks| && LiveFull(history, checks[v.value.index], now)
            && (forall k :: 0 <= k < v.value.index ==> !LiveFull(history, checks[k], now))
            && var c := checks[v.value.index]; v.value.oldestInWindow == Live(Get(history, c.bucket), now - c.window)[0])
  {
    JudgedAt(history, checks, now, 0);
    JudgedFirst(history, checks, now, 0);
    if Judge(history, checks, now, 0).None? { JudgeAdmits(history, checks, now, 0); }
  }

  predicate LiveFull(history: Hits, c: WindowCheck, now: int) {
    |Live(Get(history, c.bucket), now - c.window)| >= c.limit
  }

  lemma {:induction false} FullIsLiveFull(backend: Backend, reqs: seq<Request>, policy: Policy, i: nat)
    requires Orderly(reqs, policy) && i < |reqs|
    ensures forall k :: 0 <= k < |reqs[i].checks| ==>
      (Full(backend, reqs, i, k) <==> LiveFull(Run(History, reqs[..i]).0, reqs[i].checks[k], reqs[i].now))
  {
    forall k | 0 <= k < |reqs[i].checks|
      ensures Full(backend, reqs, i, k) <==> LiveFull(Run(History, reqs[..i]).0, reqs[i].checks[k], reqs[i].now)
    {
      FullIsLive(backend, reqs, policy, i, k);
    }
  }

  lemma {:induction false} OldestIsEarliest(backend: Backend, reqs: seq<Request>, policy: Policy, i: nat, v: WindowRejection)
    requires Orderly(reqs, policy) && i < |reqs| && v.index < |reqs[i].checks|
    requires var c := reqs[i].checks[v.index]; var live := Live(HitsBefore(reqs, i, c.bucket), reqs[i].now - c.window);
      c.limit >= 1 && |live| >= c.limit && v.oldestInWindow == live[0]
    ensures EarliestFrom(EarlierHits(backend, reqs, i, v.index), reqs[i].now - reqs[i].checks[v.index].window, v.oldestInWindow)
  {
    FullIsLive(backend, reqs, policy, i, v.index);
  }

  /** The verdict accepts when no window is full, and else names the first full one and the earliest hit in it. */
  ghost predicate NamesFirstFull(backend: Backend, reqs: seq<Request>, i: nat, v: Verdict)
    requires Runnable(reqs) && i < |reqs|
  {
    var checks := reqs[i].checks;
    && (v.None? <==> forall k :: 0 <= k < |checks| ==> !Full(backend, reqs, i, k))
    && (v.Some? ==>
          && v.value.index < |checks| && Full(backend, reqs, i, v.value.index)
          && (forall k :: 0 <= k < v.value.index ==> !Full(backend, reqs, i, k))
          && EarliestFrom(EarlierHits(backend, reqs, i, v.value.index),
                          reqs[i].now - checks[v.value.index].window, v.value.oldestInWindow))
  }

  lemma FirstFullTransfers(backend: Backend, reqs: seq<Request>, i: nat, v: Verdict, full: seq<bool>)
    requires Runnable(reqs) && i < |reqs| && |full| == |reqs[i].checks|
    requires forall k :: 0 <= k < |full| ==> (Full(backend, reqs, i, k) <==> full[k])
    requires v.None? <==> forall k :: 0 <= k < |full| ==> !full[k]
    requires v.Some? ==> v.value.index < |full| && full[v.value.index] && forall k :: 0 <= k < v.value.index ==> !full[k]
    requires v.Some? ==>
      EarliestFrom(EarlierHits(backend, reqs, i, v.value.index),
                   reqs[i].now - reqs[i].checks[v.value.index].window, v.value.oldestInWindow)
    ensures NamesFirstFull(backend, reqs, i, v)
  {
  }

  lemma FirstFullByLive(backend: Backend, reqs: seq<Request>, i: nat, v: Verdict, history: Hits)
    requires Runnable(reqs) && i < |reqs|
    requires forall k :: 0 <= k < |reqs[i].checks| ==>
      (Full(backend, reqs, i, k) <==> LiveFull(history, reqs[i].checks[k], reqs[i].now))
    requires v.None? <==> forall k :: 0 <= k < |reqs[i].checks| ==> !LiveFull(history, reqs[i].checks[k], reqs[i].now)
    requires v.Some? ==>
      && v.value.index < |reqs[i].checks| && LiveFull(history, reqs[i].checks[v.value.index], reqs[i].now)
      && (forall k :: 0 <= k < v.value.index ==> !LiveFull(history, reqs[i].checks[k], reqs[i].now))
      && EarliestFrom(EarlierHits(backend, reqs, i, v.value.index),
                      reqs[i].now - reqs[i].checks[v.value.index].window, v.value.oldestInWindow)
    ensures NamesFirstFull(backend, reqs, i, v)
  {
    var checks := reqs[i].checks;
    FirstFullTransfers(backend, reqs, i, v, seq(|checks|, k requires 0 <= k < |checks| => LiveFull(history, checks[k], reqs[i].now)));
  }

  lemma {:induction false} RejectionNamesFirstFull(backend: Backend, reqs: seq<Request>, policy: Policy, i: nat, v: Verdict)
    requires Orderly(reqs, policy) && i < |reqs| && v == RejectionOf(reqs, i)
    ensures NamesFirstFull(backend, reqs, i, v)
  {
    var history, checks, now := Run(History, reqs[..i]).0, reqs[i].checks, reqs[i].now;
    assert WellFormed(checks, policy);
    JudgeIsFirstFull(history, checks, now);
    FullIsLiveFull(backend, reqs, policy, i);
    if v.Some? { OldestIsEarliest(backend, reqs, policy, i, v.value); }
    FirstFullByLive(backend, reqs, i, v, history);
  }

  /** On either store, counting accepted hits alone. */
  lemma {:induction false} VerdictIsFirstFull(backend: Backend, reqs: seq<Request>, policy: Policy, i: nat)
    requires Orderly(reqs, policy) && i < |reqs|
    ensures NamesFirstFull(backend, reqs, i, Run(backend, reqs).1[i])
  {
    VerdictsAreRejections(backend, reqs, policy, i);
    RejectionNamesFirstFull(backend, reqs, policy, i, Run(backend, reqs).1[i]);
  }

  // ---------------------------------------------------------------------------------------------
  // Runs of budgeted calls
  // ---------------------------------------------------------------------------------------------

  type Answer = Option<BudgetError>

  /** The store after a run of calls, and what each caller heard. */
  function Answers(kind: Backend, calls: seq<TimedCall>): (r: (Hits, seq<Answer>))
    ensures |r.1| == |calls|
  {
    if calls == [] then (map[], [])
    else
      var n := |calls| - 1;
      var (contents, answers) := Answers(kind, calls[..n]);
      var (after, answer) := Charge(kind, contents, calls[n].call, calls[n].now);
      (after, answers + [answer])
  }

  ghost predicate InTimeOrder(calls: seq<TimedCall>) {
    forall i, j :: 0 <= i < j < |calls| ==> calls[i].now <= calls[j].now
  }

  /** The budgets of each kind of call, in the order they are looked at: their number and their window in seconds. */
  function ScopesOf(call: Call): seq<Scope> {
    if call.RequestLink? then [Ip, Email] else [Global, Ip, Email]
  }

  function LimitOf(call: Call, scope: Scope): nat {
    match call
    case RequestLink(_, _) => 5
    case SignupStart(_, _) => (match scope case Global => 200 case Ip => 5 case Email => 3)
    case RecoverStart(_, _) => (match scope case Global => 200 case Ip => 10 case Email => 3)
  }

  function WindowOf(call: Call): nat {
    if call.RequestLink? then 60 * 1_000_000 else 3600 * 1_000_000
  }

  /** Two calls that draw on the same budget. */
  predicate Shares(scope: Scope, a: Call, b: Call) {
    && (a.RequestLink? <==> b.RequestLink?) && (a.SignupStart? <==> b.SignupStart?)
    && (scope.Ip? ==> a.ip == b.ip) && (scope.Email? ==> a.email == b.email)
  }

  /** When calls that share a budget with `call` were accepted. */
  function AcceptedTimes(calls: seq<TimedCall>, answers: seq<Answer>, scope: Scope, call: Call): seq<int>
    requires |answers| == |calls|
  {
    if calls == [] then []
    else
      var n := |calls| - 1;
      AcceptedTimes(calls[..n], answers[..n], scope, call)
      + if answers[n].None? && Shares(scope, call, calls[n].call) then [calls[n].now] else []
  }

  /** The accepted calls before call `i` that share its budget, and how many of them its window holds. */
  function Earlier(kind: Backend, calls: seq<TimedCall>, i: nat, scope: Scope): seq<int>
    requires i < |calls|
  {
    AcceptedTimes(calls[..i], Answers(kind, calls[..i]).1, scope, calls[i].call)
  }

  ghost function Taken(kind: Backend, calls: seq<TimedCall>, i: nat, scope: Scope): nat
    requires i < |calls|
  {
    Crowd(Earlier(kind, calls, i, scope), calls[i].now - WindowOf(calls[i].call), WindowOf(calls[i].call))
  }

  /** The first budget of call `i` that is used up. */
  ghost predicate FirstUsedUp(kind: Backend, calls: seq<TimedCall>, i: nat, scope: Scope)
    requires i < |calls|
  {
    exists k :: 0 <= k < |ScopesOf(calls[i].call)| && ScopesOf(calls[i].call)[k] == scope
      && Taken(kind, calls, i, scope) == LimitOf(calls[i].call, scope)
      && forall l :: 0 <= l < k ==>
           Taken(kind, calls, i, ScopesOf(calls[i].call)[l]) < LimitOf(calls[i].call, ScopesOf(calls[i].call)[l])
  }

  /** Check `k` of a batch is the budget of scope `k`, and exactly the calls that share it name its bucket. */
  lemma CheckIsBudget(call: Call, other: Call, k: nat)
    requires k < |ScopesOf(call)|
    ensures |Batch(call)| == |ScopesOf(call)|
    ensures var c, scope := Batch(call)[k], ScopesOf(call)[k];
      && c.limit == LimitOf(call, scope) && c.window == WindowOf(call)
      && (Names(Batch(other), c.bucket) <==> Shares(scope, call, other))
  {
    var c, scope, checks := Batch(call)[k], ScopesOf(call)[k], Batch(other);
    ScopesDiffer();
    FlowsDiffer(c.bucket.scope);
    forall i | 0 <= i < |checks| ensures checks[i].bucket == c.bucket ==> Shares(scope, call, other) {
      FlowsDiffer(checks[i].bucket.scope);
    }
    if Shares(scope, call, other) {
      assert checks[k].bucket == c.bucket;
    }
  }

  lemma CallsAreRunnable(calls: seq<TimedCall>)
    ensures Runnable(Calls(calls))
  {
    forall i | 0 <= i < |calls| ensures LimitsArePositive(Calls(calls)[i].checks) {
      BatchIsWellFormed(calls[i].call);
    }
  }

  lemma {:induction false} AnswersLast(kind: Backend, calls: seq<TimedCall>, n: nat)
    requires n + 1 == |calls|
    ensures var (after, verdict) := Step(kind, Answers(kind, calls[..n]).0, Batch(calls[n].call), calls[n].now);
      Answers(kind, calls) == (after, Answers(kind, calls[..n]).1 + [Told(calls[n].call, verdict, calls[n].now)])
  {
  }

  lemma CallsLast(calls: seq<TimedCall>, n: nat)
    requires n + 1 == |calls|
    ensures Calls(calls) == Calls(calls[..n]) + [Request(Batch(calls[n].call), calls[n].now)]
  {
  }

  lemma {:induction false} ContentsAgree(kind: Backend, calls: seq<TimedCall>)
    ensures Runnable(Calls(calls)) && Answers(kind, calls).0 == Run(kind, Calls(calls)).0
  {
    CallsAreRunnable(calls);
    if calls != [] {
      var n := |calls| - 1;
      ContentsAgree(kind, calls[..n]);
      CallsLast(calls, n);
      RunLast(kind, Calls(calls), Calls(calls[..n]), Request(Batch(calls[n].call), calls[n].now));
      AnswersLast(kind, calls, n);
    }
  }

  lemma {:induction false} AnswerIsVerdict(kind: Backend, calls: seq<TimedCall>, i: nat)
    requires i < |calls|
    ensures Runnable(Calls(calls))
    ensures Answers(kind, calls).1[i] == Told(calls[i].call, Run(kind, Calls(calls)).1[i], calls[i].now)
  {
    var n := |calls| - 1;
    CallsAreRunnable(calls);
    ContentsAgree(kind, calls[..n]);
    CallsLast(calls, n);
    RunLast(kind, Calls(calls), Calls(calls[..n]), Request(Batch(calls[n].call), calls[n].now));
    AnswersLast(kind, calls, n);
    if i < n { AnswerIsVerdict(kind, calls[..n], i); }
  }

  lemma {:induction false} AnswersAreVerdicts(kind: Backend, calls: seq<TimedCall>)
    ensures Runnable(Calls(calls))
    ensures forall i :: 0 <= i < |calls| ==>
      Answers(kind, calls).1[i] == Told(calls[i].call, Run(kind, Calls(calls)).1[i], calls[i].now)
  {
    CallsAreRunnable(calls);
    forall i | 0 <= i < |calls|
      ensures Answers(kind, calls).1[i] == Told(calls[i].call, Run(kind, Calls(calls)).1[i], calls[i].now)
    {
      AnswerIsVerdict(kind, calls, i);
    }
  }

  lemma CallsAreOrderly(calls: seq<TimedCall>)
    requires InTimeOrder(calls)
    ensures Orderly(Calls(calls), QuotaOf)
  {
    forall i | 0 <= i < |calls| ensures WellFormed(Calls(calls)[i].checks, QuotaOf) {
      BatchIsWellFormed(calls[i].call);
    }
  }

  lemma {:induction false} AcceptedTimesAreHits(calls: seq<TimedCall>, answers: seq<Answer>, verdicts: seq<Verdict>, call: Call, k: nat)
    requires |answers| == |calls| == |verdicts| && k < |ScopesOf(call)| == |Batch(call)|
    requires forall i :: 0 <= i < |calls| ==> (answers[i].None? <==> verdicts[i].None?)
    ensures AcceptedTimes(calls, answers, ScopesOf(call)[k], call) == AcceptedAt(Calls(calls), verdicts, Batch(call)[k].bucket)
  {
    if calls != [] {
      var n := |calls| - 1;
      assert Calls(calls)[..n] == Calls(calls[..n]);
      AcceptedTimesAreHits(calls[..n], answers[..n], verdicts[..n], call, k);
      CheckIsBudget(call, calls[n].call, k);
    }
  }

  /** Whatever else is asked, accepted calls that share an address, an e-mail or a kind keep to their number. */
  lemma {:induction false} BudgetsHoldForCallers(kind: Backend, calls: seq<TimedCall>, call: Call, k: nat, from: int)
    requires InTimeOrder(calls) && k < |ScopesOf(call)|
    ensures var scope := ScopesOf(call)[k];
      Crowd(AcceptedTimes(calls, Answers(kind, calls).1, scope, call), from, WindowOf(call)) <= LimitOf(call, scope)
  {
    AnswersAreVerdicts(kind, calls);
    CheckIsBudget(call, call, k);
    AcceptedTimesAreHits(calls, Answers(kind, calls).1, Run(kind, Calls(calls)).1, call, k);
    BatchIsWellFormed(call);
    BudgetsHoldOverEveryRun(kind, calls, Batch(call)[k].bucket, from);
  }

  lemma {:induction false} EarlierIsEarlierHits(kind: Backend, calls: seq<TimedCall>, i: nat, k: nat)
    requires i < |calls| && k < |ScopesOf(calls[i].call)|
    ensures Runnable(Calls(calls)) && |Batch(calls[i].call)| == |ScopesOf(calls[i].call)|
    ensures Earlier(kind, calls, i, ScopesOf(calls[i].call)[k]) == EarlierHits(kind, Calls(calls), i, k)
  {
    CallsAreRunnable(calls);
    AnswersAreVerdicts(kind, calls[..i]);
    CheckIsBudget(calls[i].call, calls[i].call, k);
    assert Calls(calls)[..i] == Calls(calls[..i]);
    AcceptedTimesAreHits(calls[..i], Answers(kind, calls[..i]).1, Run(kind, Calls(calls[..i])).1, calls[i].call, k);
  }

  lemma {:induction false} FullIsTaken(kind: Backend, calls: seq<TimedCall>, i: nat, k: nat)
    requires i < |calls| && k < |ScopesOf(calls[i].call)| && Runnable(Calls(calls))
    requires |Batch(calls[i].call)| == |ScopesOf(calls[i].call)|
    ensures Full(kind, Calls(calls), i, k)
       <==> Taken(kind, calls, i, ScopesOf(calls[i].call)[k]) >= LimitOf(calls[i].call, ScopesOf(calls[i].call)[k])
  {
    EarlierIsEarlierHits(kind, calls, i, k);
    CheckIsBudget(calls[i].call, calls[i].call, k);
  }

  lemma {:induction false} TimesAtMostLimit(
    kind: Backend, calls: seq<TimedCall>, call: Call, k: nat, scope: Scope, times: seq<int>, from: int)
    requires InTimeOrder(calls) && k < |ScopesOf(call)| && scope == ScopesOf(call)[k]
    requires times == AcceptedTimes(calls, Answers(kind, calls).1, scope, call)
    ensures Crowd(times, from, WindowOf(call)) <= LimitOf(call, scope)
  {
    BudgetsHoldForCallers(kind, calls, call, k, from);
  }

  lemma {:induction false} TakenAtMostLimit(kind: Backend, calls: seq<TimedCall>, i: nat, k: nat, scope: Scope)
    requires InTimeOrder(calls) && i < |calls| && k < |ScopesOf(calls[i].call)| && scope == ScopesOf(calls[i].call)[k]
    ensures Taken(kind, calls, i, scope) <= LimitOf(calls[i].call, scope)
  {
    var call, times := calls[i].call, Earlier(kind, calls, i, scope);
    TimesAtMostLimit(kind, calls[..i], call, k, scope, times, calls[i].now - WindowOf(call));
  }

  /** The scope that a refusal is reported for. */
  function ScopeOf(error: BudgetError): Scope {
    match error
    case RateLimited(perIp) => if perIp then Ip else Email
    case StartRateLimited(scope, _) => scope
  }

  lemma {:induction false} FullBudgets(kind: Backend, calls: seq<TimedCall>, i: nat)
    requires InTimeOrder(calls) && i < |calls| && Runnable(Calls(calls))
    ensures |Batch(calls[i].call)| == |ScopesOf(calls[i].call)|
    ensures forall k :: 0 <= k < |ScopesOf(calls[i].call)| ==>
      && Taken(kind, calls, i, ScopesOf(calls[i].call)[k]) <= LimitOf(calls[i].call, ScopesOf(calls[i].call)[k])
      && (Full(kind, Calls(calls), i, k)
          <==> Taken(kind, calls, i, ScopesOf(calls[i].call)[k]) == LimitOf(calls[i].call, ScopesOf(calls[i].call)[k]))
  {
    CheckIsBudget(calls[i].call, calls[i].call, 0);
    forall k | 0 <= k < |ScopesOf(calls[i].call)|
      ensures Taken(kind, calls, i, ScopesOf(calls[i].call)[k]) <= LimitOf(calls[i].call, ScopesOf(calls[i].call)[k])
      ensures Full(kind, Calls(calls), i, k)
        <==> Taken(kind, calls, i, ScopesOf(calls[i].call)[k]) == LimitOf(calls[i].call, ScopesOf(calls[i].call)[k])
    {
      FullIsTaken(kind, calls, i, k);
      TakenAtMostLimit(kind, calls, i, k, ScopesOf(calls[i].call)[k]);
    }
  }

  lemma ReportedScope(call: Call, v: WindowRejection, now: int)
    requires v.index < |ScopesOf(call)|
    ensures ScopeOf(Refusal(call, v, now)) == ScopesOf(call)[v.index]
    ensures Refusal(call, v, now).RateLimited? <==> call.RequestLink?
  {
  }

  /**
   A call is accepted exactly when none of its budgets is used up by earlier accepted calls, and a refusal names the
   first that is.
   */
  lemma {:induction false} AcceptedIffBudgetsRemain(kind: Backend, calls: seq<TimedCall>, i: nat)
    requires InTimeOrder(calls) && i < |calls|
    ensures var answer, scopes := Answers(kind, calls).1[i], ScopesOf(calls[i].call);
      && (answer.None? <==> forall k :: 0 <= k < |scopes| ==> Taken(kind, calls, i, scopes[k]) < LimitOf(calls[i].call, scopes[k]))
      && (answer.Some? ==> FirstUsedUp(kind, calls, i, ScopeOf(answer.value)))
      && (answer.Some? ==> (answer.value.RateLimited? <==> calls[i].call.RequestLink?))
  {
    AnswerIsVerdict(kind, calls, i);
    CallsAreOrderly(calls);
    VerdictIsFirstFull(kind, Calls(calls), QuotaOf, i);
    FullBudgets(kind, calls, i);
    var v := Run(kind, Calls(calls)).1[i];
    if v.Some? { ReportedScope(calls[i].call, v.value, calls[i].now); }
  }

  // ---------------------------------------------------------------------------------------------
  // The hint a caller receives
  // ---------------------------------------------------------------------------------------------

  lemma {:induction false} RefusedForScope(kind: Backend, calls: seq<TimedCall>, i: nat, scope: Scope, hint: int)
    returns (k: nat, c: WindowCheck, oldest: int)
    requires InTimeOrder(calls) && i < |calls| && Answers(kind, calls).1[i] == Some(StartRateLimited(scope, hint))
    ensures !calls[i].call.RequestLink?
    ensures k < |ScopesOf(calls[i].call)| == |Batch(calls[i].call)| && ScopesOf(calls[i].call)[k] == scope && Batch(calls[i].call)[k] == c
    ensures Orderly(Calls(calls), QuotaOf) && RefusedAt(Calls(calls), i, c, oldest) && c.window == 3600 * SECOND
    ensures hint == RetryAfterSeconds(oldest, c.window, calls[i].now)
    ensures EarliestFrom(Earlier(kind, calls, i, scope), calls[i].now - 3600 * SECOND, oldest)
  {
    AnswersAreVerdicts(kind, calls);
    CallsAreOrderly(calls);
    VerdictIsFirstFull(kind, Calls(calls), QuotaOf, i);
    VerdictsAreRejections(kind, Calls(calls), QuotaOf, i);
    var v := Run(kind, Calls(calls)).1[i].value;
    k, oldest := v.index, v.oldestInWindow;
    c := Batch(calls[i].call)[k];
    CheckIsBudget(calls[i].call, calls[i].call, 0);
    CheckIsBudget(calls[i].call, calls[i].call, k);
    EarlierIsEarlierHits(kind, calls, i, k);
  }

  /** At least a second is left of the hour that the earliest accepted call in it began. */
  ghost predicate SecondRemained(kind: Backend, calls: seq<TimedCall>, i: nat, scope: Scope)
    requires i < |calls|
  {
    forall t :: t in Earlier(kind, calls, i, scope) && calls[i].now - 3600 * 1_000_000 <= t ==>
      t + 3600 * 1_000_000 - calls[i].now >= 1_000_000
  }

  /** The hint is between one second and the hour, and anything above one second says that a second remained. */
  lemma {:induction false} HintInRange(kind: Backend, calls: seq<TimedCall>, i: nat, scope: Scope, hint: int)
    requires InTimeOrder(calls) && i < |calls| && Answers(kind, calls).1[i] == Some(StartRateLimited(scope, hint))
    ensures 1 <= hint <= 3600 && (hint > 1 ==> SecondRemained(kind, calls, i, scope))
  {
    var k, c, oldest := RefusedForScope(kind, calls, i, scope, hint);
    RefusalHintInRange(Calls(calls), QuotaOf, i, c, oldest, 3600);
  }

  /** The same call again, up to and including the hinted moment, is refused, if a second remained. */
  lemma {:induction false} RefusedUntilHint(kind: Backend, calls: seq<TimedCall>, i: nat, scope: Scope, hint: int, j: nat)
    requires InTimeOrder(calls) && i < j < |calls| && calls[j].call == calls[i].call
    requires Answers(kind, calls).1[i] == Some(StartRateLimited(scope, hint)) && SecondRemained(kind, calls, i, scope)
    requires calls[j].now <= calls[i].now + hint * 1_000_000
    ensures Answers(kind, calls).1[j].Some?
  {
    var k, c, oldest := RefusedForScope(kind, calls, i, scope, hint);
    AnswersAreVerdicts(kind, calls);
    RefusedUntilTheHint(kind, Calls(calls), QuotaOf, i, c, oldest, j, k);
  }

  lemma {:induction false} SameEarlierSameHistory(kind: Backend, calls: seq<TimedCall>, i: nat, j: nat, k: nat, b: Bucket)
    requires Orderly(Calls(calls), QuotaOf) && i < |calls| && j < |calls| && calls[j].call == calls[i].call
    requires k < |ScopesOf(calls[i].call)| == |Batch(calls[i].call)| && b == Batch(calls[i].call)[k].bucket
    requires Earlier(kind, calls, j, ScopesOf(calls[i].call)[k]) == Earlier(kind, calls, i, ScopesOf(calls[i].call)[k])
    ensures HitsBefore(Calls(calls), j, b) == HitsBefore(Calls(calls), i, b)
  {
    EarlierIsEarlierHits(kind, calls, i, k);
    EarlierIsEarlierHits(kind, calls, j, k);
    EarlierHitsAreHistory(kind, Calls(calls), QuotaOf, i, k);
    EarlierHitsAreHistory(kind, Calls(calls), QuotaOf, j, k);
  }

  /** The scope of an answer that is a refusal is the one its verdict's index stands for. */
  lemma NotTheScope(call: Call, v: Verdict, now: int, k: nat, scope: Scope)
    requires k < |ScopesOf(call)| && ScopesOf(call)[k] == scope && (v.Some? ==> v.value.index < |ScopesOf(call)|)
    requires v.Some? ==> v.value.index != k
    ensures Told(call, v, now).Some? ==> ScopeOf(Told(call, v, now).value) != scope
  {
  }

  /** A second after the hinted moment, if no call was accepted in between that shares the budget, it is not the reason. */
  lemma {:induction false} RoomAfterHint(kind: Backend, calls: seq<TimedCall>, i: nat, scope: Scope, hint: int, j: nat)
    requires InTimeOrder(calls) && i < j < |calls| && calls[j].call == calls[i].call
    requires Answers(kind, calls).1[i] == Some(StartRateLimited(scope, hint))
    requires calls[j].now >= calls[i].now + (hint + 1) * 1_000_000
    requires Earlier(kind, calls, j, scope) == Earlier(kind, calls, i, scope)
    ensures Answers(kind, calls).1[j].Some? ==> ScopeOf(Answers(kind, calls).1[j].value) != scope
  {
    var k, c, oldest := RefusedForScope(kind, calls, i, scope, hint);
    SameEarlierSameHistory(kind, calls, i, j, k, c.bucket);
    RoomAfterTheHint(kind, Calls(calls), QuotaOf, i, c, oldest, j, k);
    AnswerIsVerdict(kind, calls, j);
    VerdictIsFirstFull(kind, Calls(calls), QuotaOf, j);
    NotTheScope(calls[j].call, Run(kind, Calls(calls)).1[j], calls[j].now, k, scope);
  }
}
