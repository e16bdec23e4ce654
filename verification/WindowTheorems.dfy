/**
 Both window stores give the verdicts of the full history, and the history never holds more than
 `limit` accepted hits of a bucket in any closed interval of its window.
 */
module WindowTheorems {
  import opened Prelude
  import opened Intervals
  import opened WindowStore

  // ---------------------------------------------------------------------------------------------
  // Trimming and filtering sorted hits
  // ---------------------------------------------------------------------------------------------

  lemma {:induction false} LiveOfAppend(hits: seq<int>, t: int, cutoff: int)
    ensures Live(hits + [t], cutoff) == Live(hits, cutoff) + if t >= cutoff then [t] else []
  {
    if hits == [] {
      assert hits + [t] == [t];
    } else {
      assert (hits + [t])[0] == hits[0] && (hits + [t])[1..] == hits[1..] + [t];
      LiveOfAppend(hits[1..], t, cutoff);
    }
  }

  /** Filtering again at a later cutoff is filtering once at the later cutoff. */
  lemma {:induction false} LiveOfLive(hits: seq<int>, early: int, late: int)
    requires early <= late
    ensures Live(Live(hits, early), late) == Live(hits, late)
  {
    if hits != [] {
      LiveOfLive(hits[1..], early, late);
    }
  }

  lemma {:induction false} LiveKeepsAll(hits: seq<int>, cutoff: int)
    requires forall i :: 0 <= i < |hits| ==> hits[i] >= cutoff
    ensures Live(hits, cutoff) == hits
  {
    if hits != [] {
      LiveKeepsAll(hits[1..], cutoff);
    }
  }

  lemma {:induction false} LiveSkipsStale(hits: seq<int>, k: nat, cutoff: int)
    requires k <= |hits| && forall i :: 0 <= i < k ==> hits[i] < cutoff
    ensures Live(hits, cutoff) == Live(hits[k..], cutoff)
  {
    if k == 0 {
      assert hits[0..] == hits;
    } else {
      LiveSkipsStale(hits[1..], k - 1, cutoff);
      assert hits[1..][k - 1..] == hits[k..];
    }
  }

  /** On sorted hits the deque's left trim and the table's filter agree: both keep a suffix. */
  lemma {:induction false} TrimIsLive(hits: seq<int>, cutoff: int)
    requires Sorted(hits)
    ensures Live(hits, cutoff) == hits[Stale(hits, cutoff)..] == TrimFront(hits, cutoff)
  {
    var k := Stale(hits, cutoff);
    TrimDropsStale(hits, cutoff);
    LiveSkipsStale(hits, k, cutoff);
    LiveKeepsAll(hits[k..], cutoff);
  }

  // ---------------------------------------------------------------------------------------------
  // What one pass over a batch does to one bucket
  // ---------------------------------------------------------------------------------------------

  lemma NamesSplit(checks: seq<WindowCheck>, b: Bucket)
    requires checks != []
    ensures Names(checks, b) <==> Names(checks[..|checks| - 1], b) || checks[|checks| - 1].bucket == b
  {
    var n := |checks| - 1;
    if Names(checks, b) && checks[n].bucket != b {
      var i :| 0 <= i < |checks| && checks[i].bucket == b;
      assert checks[..n][i].bucket == b;
    }
  }

  lemma {:induction false} EvictAllAt(store: Hits, checks: seq<WindowCheck>, now: int, policy: Policy, b: Bucket)
    requires Distinct(checks) && Follows(checks, policy)
    ensures Get(EvictAll(store, checks, now), b)
         == if Names(checks, b) then TrimFront(Get(store, b), now - policy(b).window) else Get(store, b)
  {
    if checks != [] {
      NamesSplit(checks, b);
      EvictAllAt(store, checks[..|checks| - 1], now, policy, b);
    }
  }

  lemma {:induction false} RecordAllAt(store: Hits, checks: seq<WindowCheck>, now: int, b: Bucket)
    requires Distinct(checks)
    ensures Get(RecordAll(store, checks, now), b) == if Names(checks, b) then Get(store, b) + [now] else Get(store, b)
  {
    if checks != [] {
      NamesSplit(checks, b);
      RecordAllAt(store, checks[..|checks| - 1], now, b);
    }
  }

  lemma {:induction false} LiveRowsAt(table: Hits, checks: seq<WindowCheck>, now: int, policy: Policy, b: Bucket)
    requires Follows(checks, policy)
    ensures b in LiveRows(table, checks, now) <==> Names(checks, b)
    ensures Get(LiveRows(table, checks, now), b)
         == if Names(checks, b) then Live(Get(table, b), now - policy(b).window) else []
  {
    if checks != [] {
      NamesSplit(checks, b);
      LiveRowsAt(table, checks[..|checks| - 1], now, policy, b);
    }
  }

  lemma {:induction false} WriteRowsAt(table: Hits, live: Hits, checks: seq<WindowCheck>, now: int, b: Bucket)
    requires Distinct(checks)
    ensures Get(WriteRows(table, live, checks, now), b)
         == if Names(checks, b) then Get(live, b) + [now] else Get(table, b)
  {
    if checks != [] {
      NamesSplit(checks, checks[|checks| - 1].bucket);
      NamesSplit(checks, b);
      WriteRowsAt(table, live, checks[..|checks| - 1], now, b);
    }
  }

  // ---------------------------------------------------------------------------------------------
  // A store tracks the history when they agree on every hit that can still count
  // ---------------------------------------------------------------------------------------------

  ghost predicate TracksAt(kept: seq<int>, past: seq<int>, window: nat, last: int) {
    && Sorted(kept) && AllUpTo(kept, last)
    && Sorted(past) && AllUpTo(past, last)
    && Live(kept, last - window) == Live(past, last - window)
  }

  ghost predicate Tracks(store: Hits, history: Hits, policy: Policy, last: int) {
    forall b: Bucket :: TracksAt(Get(store, b), Get(history, b), policy(b).window, last)
  }

  /** Time passes, nothing is recorded; the store may or may not trim. */
  lemma TracksLater(kept: seq<int>, past: seq<int>, window: nat, last: int, now: int)
    requires TracksAt(kept, past, window, last) && last <= now
    ensures TracksAt(kept, past, window, now)
    ensures TracksAt(Live(kept, now - window), past, window, now)
    ensures Live(kept, now - window) == Live(past, now - window)
    ensures Sorted(Live(kept, now - window))
  {
    LiveOfLive(kept, last - window, now - window);
    LiveOfLive(past, last - window, now - window);
    LiveTracks(kept, now - window, now);
  }

  lemma {:induction false} LiveTracks(kept: seq<int>, cutoff: int, now: int)
    requires Sorted(kept) && AllUpTo(kept, now)
    ensures Sorted(Live(kept, cutoff)) && AllUpTo(Live(kept, cutoff), now) && Live(Live(kept, cutoff), cutoff) == Live(kept, cutoff)
  {
    LiveOfLive(kept, cutoff, cutoff);
    TrimIsLive(kept, cutoff);
  }

  lemma TracksRecorded(kept: seq<int>, past: seq<int>, window: nat, now: int)
    requires TracksAt(kept, past, window, now)
    ensures TracksAt(kept + [now], past + [now], window, now)
  {
    LiveOfAppend(kept, now, now - window);
    LiveOfAppend(past, now, now - window);
  }

  lemma {:induction false} FirstOverIsJudge(evicted: Hits, history: Hits, checks: seq<WindowCheck>, now: int, from: nat)
    requires LimitsArePositive(checks) && from <= |checks|
    requires forall i :: 0 <= i < |checks| ==>
      Get(evicted, checks[i].bucket) == Live(Get(history, checks[i].bucket), now - checks[i].window)
    ensures FirstOver(evicted, checks, from) == Judge(history, checks, now, from)
    decreases |checks| - from
  {
    if from < |checks| {
      FirstOverIsJudge(evicted, history, checks, now, from + 1);
    }
  }

  lemma {:induction false} FirstFullIsJudge(live: Hits, history: Hits, checks: seq<WindowCheck>, now: int, from: nat)
    requires LimitsArePositive(checks) && from <= |checks|
    requires forall i :: 0 <= i < |checks| ==>
      Get(live, checks[i].bucket) == Live(Get(history, checks[i].bucket), now - checks[i].window)
    requires forall i :: 0 <= i < |checks| ==> Sorted(Get(live, checks[i].bucket))
    ensures FirstFull(live, checks, from) == Judge(history, checks, now, from)
    decreases |checks| - from
  {
    if from < |checks| {
      FirstFullIsJudge(live, history, checks, now, from + 1);
    }
  }

  /** One bucket across one step: what the store may keep, and what it keeps if the batch is recorded. */
  lemma BucketTracks(kept: seq<int>, past: seq<int>, window: nat, last: int, now: int)
    requires TracksAt(kept, past, window, last) && last <= now
    ensures var live := Live(kept, now - window);
      && live == Live(past, now - window) && Sorted(live)
      && TracksAt(kept, past, window, now) && TracksAt(live, past, window, now)
      && TracksAt(live + [now], past + [now], window, now)
  {
    TracksLater(kept, past, window, last, now);
    TracksRecorded(Live(kept, now - window), past, window, now);
  }

  lemma {:induction false} EvictedIsLive(store: Hits, checks: seq<WindowCheck>, now: int, policy: Policy, b: Bucket)
    requires Distinct(checks) && Follows(checks, policy) && Sorted(Get(store, b))
    ensures Get(EvictAll(store, checks, now), b)
         == if Names(checks, b) then Live(Get(store, b), now - policy(b).window) else Get(store, b)
  {
    EvictAllAt(store, checks, now, policy, b);
    TrimIsLive(Get(store, b), now - policy(b).window);
  }

  lemma {:induction false} EvictedTracks(
    store: Hits, history: Hits, policy: Policy, last: int, checks: seq<WindowCheck>, now: int, b: Bucket)
    requires Tracks(store, history, policy, last) && last <= now && WellFormed(checks, policy)
    ensures TracksAt(Get(EvictAll(store, checks, now), b), Get(history, b), policy(b).window, now)
    ensures Names(checks, b) ==> Get(EvictAll(store, checks, now), b) == Live(Get(history, b), now - policy(b).window)
  {
    var kept := Get(store, b);
    assert TracksAt(kept, Get(history, b), policy(b).window, last);
    TracksLater(kept, Get(history, b), policy(b).window, last, now);
    EvictedIsLive(store, checks, now, policy, b);
  }

  lemma {:induction false} MemoryBucketTracks(
    store: Hits, history: Hits, policy: Policy, last: int, checks: seq<WindowCheck>, now: int, b: Bucket)
    requires Tracks(store, history, policy, last) && last <= now && WellFormed(checks, policy)
    ensures var evicted, window := EvictAll(store, checks, now), policy(b).window;
      && TracksAt(Get(evicted, b), Get(history, b), window, now)
      && TracksAt(Get(RecordAll(evicted, checks, now), b), Get(RecordAll(history, checks, now), b), window, now)
      && (Names(checks, b) ==> Get(evicted, b) == Live(Get(history, b), now - window))
  {
    EvictedTracks(store, history, policy, last, checks, now, b);
    RecordedTracks(EvictAll(store, checks, now), history, policy(b).window, checks, now, b);
  }

  lemma {:induction false} RecordedTracks(evicted: Hits, history: Hits, window: nat, checks: seq<WindowCheck>, now: int, b: Bucket)
    requires TracksAt(Get(evicted, b), Get(history, b), window, now) && Distinct(checks)
    ensures TracksAt(Get(RecordAll(evicted, checks, now), b), Get(RecordAll(history, checks, now), b), window, now)
  {
    RecordAllAt(evicted, checks, now, b);
    RecordAllAt(history, checks, now, b);
    TracksRecorded(Get(evicted, b), Get(history, b), window, now);
  }

  lemma MemoryVerdict(store: Hits, history: Hits, policy: Policy, last: int, checks: seq<WindowCheck>, now: int)
    requires Tracks(store, history, policy, last) && last <= now && WellFormed(checks, policy)
    ensures MemoryStep(store, checks, now).1 == HistoryStep(history, checks, now).1
  {
    forall i | 0 <= i < |checks|
      ensures Sorted(Get(EvictAll(store, checks, now), checks[i].bucket))
      ensures Get(EvictAll(store, checks, now), checks[i].bucket) == Live(Get(history, checks[i].bucket), now - checks[i].window)
    {
      EvictedAtCheck(store, history, policy, last, checks, now, i);
    }
    FirstOverIsJudge(EvictAll(store, checks, now), history, checks, now, 0);
  }

  lemma NamedByCheck(checks: seq<WindowCheck>, policy: Policy, i: nat)
    requires Follows(checks, policy) && i < |checks|
    ensures Names(checks, checks[i].bucket) && policy(checks[i].bucket).window == checks[i].window
  {
  }

  lemma {:induction false} EvictedAtCheck(store: Hits, history: Hits, policy: Policy, last: int, checks: seq<WindowCheck>, now: int, i: nat)
    requires Tracks(store, history, policy, last) && last <= now && WellFormed(checks, policy) && i < |checks|
    ensures var read := Get(EvictAll(store, checks, now), checks[i].bucket);
      Sorted(read) && read == Live(Get(history, checks[i].bucket), now - checks[i].window)
  {
    NamedByCheck(checks, policy, i);
    MemoryBucketTracks(store, history, policy, last, checks, now, checks[i].bucket);
  }

  lemma MemoryTracks(store: Hits, history: Hits, policy: Policy, last: int, checks: seq<WindowCheck>, now: int)
    requires Tracks(store, history, policy, last) && last <= now && WellFormed(checks, policy)
    ensures MemoryStep(store, checks, now).1 == HistoryStep(history, checks, now).1
    ensures Tracks(MemoryStep(store, checks, now).0, HistoryStep(history, checks, now).0, policy, now)
  {
    MemoryVerdict(store, history, policy, last, checks, now);
    forall b: Bucket
      ensures TracksAt(Get(MemoryStep(store, checks, now).0, b), Get(HistoryStep(history, checks, now).0, b), policy(b).window, now)
    {
      MemoryBucketTracks(store, history, policy, last, checks, now, b);
    }
  }
  lemma {:induction false} TableBucketTracks(
    table: Hits, history: Hits, policy: Policy, last: int, checks: seq<WindowCheck>, now: int, b: Bucket)
    requires Tracks(table, history, policy, last) && last <= now && WellFormed(checks, policy)
    ensures var live, window := LiveRows(table, checks, now), policy(b).window;
      && TracksAt(Get(table, b), Get(history, b), window, now)
      && TracksAt(Get(WriteRows(table, live, checks, now), b), Get(RecordAll(history, checks, now), b), window, now)
  {
    assert TracksAt(Get(table, b), Get(history, b), policy(b).window, last);
    BucketTracks(Get(table, b), Get(history, b), policy(b).window, last, now);
    LiveRowsAt(table, checks, now, policy, b);
    WrittenTracks(table, LiveRows(table, checks, now), history, policy(b).window, checks, now, b);
  }

  lemma {:induction false} WrittenTracks(table: Hits, live: Hits, history: Hits, window: nat, checks: seq<WindowCheck>, now: int, b: Bucket)
    requires Distinct(checks) && TracksAt(Get(table, b), Get(history, b), window, now)
    requires Names(checks, b) ==> TracksAt(Get(live, b) + [now], Get(history, b) + [now], window, now)
    ensures TracksAt(Get(WriteRows(table, live, checks, now), b), Get(RecordAll(history, checks, now), b), window, now)
  {
    WriteRowsAt(table, live, checks, now, b);
    RecordAllAt(history, checks, now, b);
  }

  lemma TableVerdict(table: Hits, history: Hits, policy: Policy, last: int, checks: seq<WindowCheck>, now: int)
    requires Tracks(table, history, policy, last) && last <= now && WellFormed(checks, policy)
    ensures TableStep(table, checks, now).1 == HistoryStep(history, checks, now).1
  {
    forall i | 0 <= i < |checks|
      ensures Sorted(Get(LiveRows(table, checks, now), checks[i].bucket))
      ensures Get(LiveRows(table, checks, now), checks[i].bucket) == Live(Get(history, checks[i].bucket), now - checks[i].window)
    {
      ReadAtCheck(table, history, policy, last, checks, now, i);
    }
    FirstFullIsJudge(LiveRows(table, checks, now), history, checks, now, 0);
  }

  lemma {:induction false} ReadAtCheck(table: Hits, history: Hits, policy: Policy, last: int, checks: seq<WindowCheck>, now: int, i: nat)
    requires Tracks(table, history, policy, last) && last <= now && WellFormed(checks, policy) && i < |checks|
    ensures var read := Get(LiveRows(table, checks, now), checks[i].bucket);
      Sorted(read) && read == Live(Get(history, checks[i].bucket), now - checks[i].window)
  {
    var b := checks[i].bucket;
    NamedByCheck(checks, policy, i);
    assert TracksAt(Get(table, b), Get(history, b), policy(b).window, last);
    TracksLater(Get(table, b), Get(history, b), policy(b).window, last, now);
    LiveRowsAt(table, checks, now, policy, b);
  }

  lemma TableTracks(table: Hits, history: Hits, policy: Policy, last: int, checks: seq<WindowCheck>, now: int)
    requires Tracks(table, history, policy, last) && last <= now && WellFormed(checks, policy)
    ensures TableStep(table, checks, now).1 == HistoryStep(history, checks, now).1
    ensures Tracks(TableStep(table, checks, now).0, HistoryStep(history, checks, now).0, policy, now)
  {
    TableVerdict(table, history, policy, last, checks, now);
    forall b: Bucket
      ensures TracksAt(Get(TableStep(table, checks, now).0, b), Get(HistoryStep(history, checks, now).0, b), policy(b).window, now)
    {
      TableBucketTracks(table, history, policy, last, checks, now, b);
    }
  }

  // ---------------------------------------------------------------------------------------------
  // Whole runs
  // ---------------------------------------------------------------------------------------------

  predicate Runnable(reqs: seq<Request>) {
    forall i :: 0 <= i < |reqs| ==> LimitsArePositive(reqs[i].checks)
  }

  /** The state and the verdicts after a run from an empty store. */
  function Run(backend: Backend, reqs: seq<Request>): (r: (Hits, seq<Verdict>))
    requires Runnable(reqs)
    ensures |r.1| == |reqs|
  {
    if reqs == [] then (map[], [])
    else
      var n := |reqs| - 1;
      var earlier := Run(backend, reqs[..n]);
      var (store, verdict) := Step(backend, earlier.0, reqs[n].checks, reqs[n].now);
      (store, earlier.1 + [verdict])
  }

  /** When hits of `b` were accepted, as the verdicts alone show it. */
  function AcceptedAt(reqs: seq<Request>, verdicts: seq<Verdict>, b: Bucket): seq<int>
    requires |verdicts| == |reqs|
  {
    if reqs == [] then []
    else
      var n := |reqs| - 1;
      AcceptedAt(reqs[..n], verdicts[..n], b)
      + if verdicts[n].None? && Names(reqs[n].checks, b) then [reqs[n].now] else []
  }

  ghost function LastTime(reqs: seq<Request>, default: int): int {
    if reqs == [] then default else reqs[|reqs| - 1].now
  }

  lemma {:induction false} RunTracks(backend: Backend, reqs: seq<Request>, policy: Policy, start: int)
    requires Orderly(reqs, policy) && (reqs != [] ==> start <= reqs[0].now)
    ensures Run(backend, reqs).1 == Run(History, reqs).1
    ensures Tracks(Run(backend, reqs).0, Run(History, reqs).0, policy, LastTime(reqs, start))
  {
    if reqs != [] {
      var n := |reqs| - 1;
      RunTracks(backend, reqs[..n], policy, start);
      var last := LastTime(reqs[..n], start);
      var store, history := Run(backend, reqs[..n]).0, Run(History, reqs[..n]).0;
      match backend {
        case Memory => MemoryTracks(store, history, policy, last, reqs[n].checks, reqs[n].now);
        case Table => TableTracks(store, history, policy, last, reqs[n].checks, reqs[n].now);
        case History => HistoryTracksItself(store, policy, last, reqs[n].checks, reqs[n].now);
      }
    }
  }

  lemma HistoryTracksItself(history: Hits, policy: Policy, last: int, checks: seq<WindowCheck>, now: int)
    requires Tracks(history, history, policy, last) && last <= now && WellFormed(checks, policy)
    ensures Tracks(HistoryStep(history, checks, now).0, HistoryStep(history, checks, now).0, policy, now)
  {
    forall b: Bucket
      ensures TracksAt(Get(history, b), Get(history, b), policy(b).window, now)
      ensures TracksAt(Get(RecordAll(history, checks, now), b), Get(RecordAll(history, checks, now), b), policy(b).window, now)
    {
      assert TracksAt(Get(history, b), Get(history, b), policy(b).window, last);
      TracksLater(Get(history, b), Get(history, b), policy(b).window, last, now);
      RecordAllAt(history, checks, now, b);
      TracksRecorded(Get(history, b), Get(history, b), policy(b).window, now);
    }
  }

  /**
   The shared table and the process-local deques answer alike over every orderly run, refusals
   included, although a refusal trims the deques and leaves the rows as they were.
   */
  lemma {:induction false} StoresAgree(reqs: seq<Request>, policy: Policy)
    requires Orderly(reqs, policy)
    ensures Run(Memory, reqs).1 == Run(Table, reqs).1 == Run(History, reqs).1
  {
    var start := if reqs == [] then 0 else reqs[0].now;
    RunTracks(Memory, reqs, policy, start);
    RunTracks(Table, reqs, policy, start);
  }

  // ---------------------------------------------------------------------------------------------
  // The cap
  // ---------------------------------------------------------------------------------------------

  lemma {:induction false} JudgeAdmits(history: Hits, checks: seq<WindowCheck>, now: int, from: nat)
    requires LimitsArePositive(checks) && from <= |checks| && Judge(history, checks, now, from).None?
    ensures forall i :: from <= i < |checks| ==>
      |Live(Get(history, checks[i].bucket), now - checks[i].window)| < checks[i].limit
    decreases |checks| - from
  {
    if from < |checks| {
      JudgeAdmits(history, checks, now, from + 1);
    }
  }

  lemma {:induction false} AdmittedStaysSpaced(past: seq<int>, quota: Quota, now: int)
    requires Sorted(past) && AllUpTo(past, now) && Spaced(past, quota.limit, quota.window)
    requires |Live(past, now - quota.window)| < quota.limit
    ensures Spaced(past + [now], quota.limit, quota.window)
  {
    TrimIsLive(past, now - quota.window);
    var k := Stale(past, now - quota.window);
    forall i | 0 <= i && i + quota.limit <= |past| ensures now > past[i] + quota.window {
      assert i < k;
    }
  }

  lemma StepStaysSpaced(history: Hits, checks: seq<WindowCheck>, now: int, policy: Policy, b: Bucket)
    requires WellFormed(checks, policy)
    requires Sorted(Get(history, b)) && AllUpTo(Get(history, b), now)
    requires Spaced(Get(history, b), policy(b).limit, policy(b).window)
    ensures Spaced(Get(HistoryStep(history, checks, now).0, b), policy(b).limit, policy(b).window)
  {
    RecordAllAt(history, checks, now, b);
    if Judge(history, checks, now, 0).None? && Names(checks, b) {
      JudgeAdmits(history, checks, now, 0);
      var i :| 0 <= i < |checks| && checks[i].bucket == b;
      AdmittedStaysSpaced(Get(history, b), policy(b), now);
    }
  }

  lemma {:induction false} HistoryIsSpaced(reqs: seq<Request>, policy: Policy, b: Bucket)
    requires Orderly(reqs, policy)
    ensures Spaced(Get(Run(History, reqs).0, b), policy(b).limit, policy(b).window)
  {
    if reqs != [] {
      var n := |reqs| - 1;
      var history := Run(History, reqs[..n]).0;
      HistoryIsSpaced(reqs[..n], policy, b);
      RunTracks(History, reqs[..n], policy, reqs[0].now);
      assert TracksAt(Get(history, b), Get(history, b), policy(b).window, LastTime(reqs[..n], reqs[0].now));
      StepStaysSpaced(history, reqs[n].checks, reqs[n].now, policy, b);
    }
  }

  /** The history holds one hit per accepted request that names the bucket, and nothing else. */
  lemma {:induction false} HistoryIsWhatWasAccepted(reqs: seq<Request>, b: Bucket)
    requires Runnable(reqs) && forall i :: 0 <= i < |reqs| ==> Distinct(reqs[i].checks)
    ensures Get(Run(History, reqs).0, b) == AcceptedAt(reqs, Run(History, reqs).1, b)
  {
    if reqs != [] {
      var n := |reqs| - 1;
      HistoryIsWhatWasAccepted(reqs[..n], b);
      assert Run(History, reqs).1[..n] == Run(History, reqs[..n]).1;
      RecordAllAt(Run(History, reqs[..n]).0, reqs[n].checks, reqs[n].now, b);
    }
  }

  /** Whatever the backend, no closed interval of a bucket's window ever sees more than `limit` accepted hits. */
  lemma {:induction false} CapHoldsOverEveryRun(backend: Backend, reqs: seq<Request>, policy: Policy, b: Bucket, from: int)
    requires Orderly(reqs, policy)
    ensures Crowd(AcceptedAt(reqs, Run(backend, reqs).1, b), from, policy(b).window) <= policy(b).limit
  {
    StoresAgree(reqs, policy);
    HistoryIsSpaced(reqs, policy, b);
    HistoryIsWhatWasAccepted(reqs, b);
    SpacedBoundsEveryInterval(AcceptedAt(reqs, Run(backend, reqs).1, b), policy(b).limit, policy(b).window, from);
  }

  // ---------------------------------------------------------------------------------------------
  // Refusals record nothing, acceptances record once
  // ---------------------------------------------------------------------------------------------

  /** One call seen through the hits a bucket gains: none when refused, one per named bucket when accepted. */
  lemma {:induction false} OneHitPerAcceptedBucket(store: Hits, checks: seq<WindowCheck>, now: int, policy: Policy, b: Bucket)
    requires WellFormed(checks, policy)
    ensures var (after, verdict) := MemoryStep(store, checks, now);
      var kept := if Names(checks, b) then TrimFront(Get(store, b), now - policy(b).window) else Get(store, b);
      Get(after, b) == if verdict.None? && Names(checks, b) then kept + [now] else kept
    ensures var (after, verdict) := TableStep(store, checks, now);
      && (verdict.Some? ==> after == store)
      && (verdict.None? ==>
            Get(after, b) == if Names(checks, b) then Live(Get(store, b), now - policy(b).window) + [now] else Get(store, b))
  {
    EvictAllAt(store, checks, now, policy, b);
    RecordAllAt(EvictAll(store, checks, now), checks, now, b);
    LiveRowsAt(store, checks, now, policy, b);
    WriteRowsAt(store, LiveRows(store, checks, now), checks, now, b);
  }

  /** Why a batch must name distinct buckets: naming one twice records two hits past a cap of one. */
  lemma NamingABucketTwiceBreaksTheCap(b: Bucket)
    ensures var twice := [WindowCheck(b, 1, 60), WindowCheck(b, 1, 60)];
      MemoryStep(map[], twice, 0).1.None? && Get(MemoryStep(map[], twice, 0).0, b) == [0, 0]
  {
    var check := WindowCheck(b, 1, 60);
    var twice := [check, check];
    assert twice[..1] == [check] && [check][..0] == [];
    assert EvictAll(map[], [check], 0) == map[b := []];
    assert EvictAll(map[], twice, 0) == map[b := []];
    assert FirstOver(map[b := []], twice, 2).None?;
    assert FirstOver(map[b := []], twice, 1).None?;
    assert Get(map[b := []], b) + [0] == [0];
    assert RecordAll(map[b := []], [check], 0) == map[b := [0]];
    assert Get(map[b := [0]], b) + [0] == [0, 0];
    assert RecordAll(map[b := []], twice, 0) == map[b := [0, 0]];
  }
}
