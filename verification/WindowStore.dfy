/**
 Sliding-window abuse counters: the in-memory store, the shared-table store, and the history both
 of them are measured against. Times are integers (any fixed resolution).
 */
module WindowStore {
  import opened Prelude
  import opened Intervals

  datatype Bucket = Bucket(scope: string, key: string)

  datatype WindowCheck = WindowCheck(bucket: Bucket, limit: int, window: int)

  /** The first bucket over its cap, with its oldest live hit. */
  datatype WindowRejection = WindowRejection(index: nat, oldestInWindow: int)

  /** One call of `check_and_record_all`. */
  datatype Request = Request(checks: seq<WindowCheck>, now: int)

  type Hits = map<Bucket, seq<int>>
  type Verdict = Option<WindowRejection>

  function Get(store: Hits, b: Bucket): seq<int> {
    if b in store then store[b] else []
  }

  /** The hits that still count at `cutoff`. */
  function Live(hits: seq<int>, cutoff: int): seq<int> {
    if hits == [] then []
    else if hits[0] >= cutoff then [hits[0]] + Live(hits[1..], cutoff)
    else Live(hits[1..], cutoff)
  }

  // ---------------------------------------------------------------------------------------------
  // What callers guarantee
  // ---------------------------------------------------------------------------------------------

  datatype Quota = Quota(limit: nat, window: nat)

  /** Every bucket has one fixed quota for the life of the deployment. */
  type Policy = Bucket -> Quota

  predicate Distinct(checks: seq<WindowCheck>) {
    forall i, j :: 0 <= i < j < |checks| ==> checks[i].bucket != checks[j].bucket
  }

  predicate LimitsArePositive(checks: seq<WindowCheck>) {
    forall i :: 0 <= i < |checks| ==> checks[i].limit >= 1
  }

  ghost predicate Follows(checks: seq<WindowCheck>, policy: Policy) {
    forall i :: 0 <= i < |checks| ==>
      checks[i].limit == policy(checks[i].bucket).limit && checks[i].window == policy(checks[i].bucket).window
  }

  ghost predicate WellFormed(checks: seq<WindowCheck>, policy: Policy) {
    Distinct(checks) && LimitsArePositive(checks) && Follows(checks, policy)
  }

  /** Requests in the order they take effect, with clocks that never run backwards. */
  ghost predicate Orderly(reqs: seq<Request>, policy: Policy) {
    && (forall i :: 0 <= i < |reqs| ==> WellFormed(reqs[i].checks, policy))
    && (forall i, j :: 0 <= i < j < |reqs| ==> reqs[i].now <= reqs[j].now)
  }

  predicate Names(checks: seq<WindowCheck>, b: Bucket) {
    exists i :: 0 <= i < |checks| && checks[i].bucket == b
  }

  // ---------------------------------------------------------------------------------------------
  // The in-memory store
  // ---------------------------------------------------------------------------------------------

  function EvictAll(store: Hits, checks: seq<WindowCheck>, now: int): Hits {
    if checks == [] then store
    else
      var c := checks[|checks| - 1];
      var earlier := EvictAll(store, checks[..|checks| - 1], now);
      earlier[c.bucket := TrimFront(Get(earlier, c.bucket), now - c.window)]
  }

  function FirstOver(store: Hits, checks: seq<WindowCheck>, from: nat): (v: Verdict)
    requires LimitsArePositive(checks) && from <= |checks|
    ensures v.Some? ==> from <= v.value.index < |checks|
    decreases |checks| - from
  {
    if from == |checks| then None
    else if |Get(store, checks[from].bucket)| >= checks[from].limit then
      Some(WindowRejection(from, Get(store, checks[from].bucket)[0]))
    else FirstOver(store, checks, from + 1)
  }

  function RecordAll(store: Hits, checks: seq<WindowCheck>, now: int): Hits {
    if checks == [] then store
    else
      var c := checks[|checks| - 1];
      var earlier := RecordAll(store, checks[..|checks| - 1], now);
      earlier[c.bucket := Get(earlier, c.bucket) + [now]]
  }

  function MemoryStep(store: Hits, checks: seq<WindowCheck>, now: int): (Hits, Verdict)
    requires LimitsArePositive(checks)
  {
    var evicted := EvictAll(store, checks, now);
    var verdict := FirstOver(evicted, checks, 0);
    if verdict.Some? then (evicted, verdict) else (RecordAll(evicted, checks, now), None)
  }

  class MemoryWindowStore {
    var hits: Hits

    constructor ()
      ensures hits == map[]
    {
      hits := map[];
    }

    method CheckAndRecordAll(checks: seq<WindowCheck>, now: int) returns (verdict: Verdict)
      requires LimitsArePositive(checks)
      modifies this
      ensures (hits, verdict) == MemoryStep(old(hits), checks, now)
    {
      EvictExpired(checks, now);
      verdict := FirstRejection(checks);
      if verdict.None? {
        Record(checks, now);
      }
    }

    method EvictExpired(checks: seq<WindowCheck>, now: int)
      modifies this
      ensures hits == EvictAll(old(hits), checks, now)
    {
      for i := 0 to |checks|
        invariant hits == EvictAll(old(hits), checks[..i], now)
      {
        var b, cutoff := checks[i].bucket, now - checks[i].window;
        var deque := Get(hits, b);
        while deque != [] && deque[0] < cutoff
          invariant TrimFront(deque, cutoff) == TrimFront(Get(hits, b), cutoff)
          decreases |deque|
        {
          deque := deque[1..];
        }
        hits := hits[b := deque];
        assert checks[..i + 1][..i] == checks[..i];
      }
      assert checks[..|checks|] == checks;
    }

    method FirstRejection(checks: seq<WindowCheck>) returns (verdict: Verdict)
      requires LimitsArePositive(checks)
      ensures verdict == FirstOver(hits, checks, 0)
    {
      for index := 0 to |checks|
        invariant FirstOver(hits, checks, 0) == FirstOver(hits, checks, index)
      {
        var deque := Get(hits, checks[index].bucket);
        if |deque| >= checks[index].limit {
          return Some(WindowRejection(index, deque[0]));
        }
      }
      return None;
    }

    method Record(checks: seq<WindowCheck>, now: int)
      modifies this
      ensures hits == RecordAll(old(hits), checks, now)
    {
      for i := 0 to |checks|
        invariant hits == RecordAll(old(hits), checks[..i], now)
      {
        hits := hits[checks[i].bucket := Get(hits, checks[i].bucket) + [now]];
        assert checks[..i + 1][..i] == checks[..i];
      }
      assert checks[..|checks|] == checks;
    }
  }

  // ---------------------------------------------------------------------------------------------
  // The shared-table store
  // ---------------------------------------------------------------------------------------------

  function Min(hits: seq<int>): (m: int)
    requires hits != []
    ensures m in hits && forall h :: h in hits ==> m <= h
  {
    if |hits| == 1 then hits[0]
    else
      var rest := Min(hits[1..]);
      assert forall h :: h in hits <==> h == hits[0] || h in hits[1..];
      if hits[0] <= rest then hits[0] else rest
  }

  /** `live`: what each named bucket's row still holds, by the window of the check that first names it. */
  function LiveRows(table: Hits, checks: seq<WindowCheck>, now: int): Hits {
    if checks == [] then map[]
    else
      var c := checks[|checks| - 1];
      var earlier := LiveRows(table, checks[..|checks| - 1], now);
      if c.bucket in earlier then earlier
      else earlier[c.bucket := Live(Get(table, c.bucket), now - c.window)]
  }

  function FirstFull(live: Hits, checks: seq<WindowCheck>, from: nat): Verdict
    requires LimitsArePositive(checks) && from <= |checks|
    decreases |checks| - from
  {
    if from == |checks| then None
    else if |Get(live, checks[from].bucket)| >= checks[from].limit then
      Some(WindowRejection(from, Min(Get(live, checks[from].bucket))))
    else FirstFull(live, checks, from + 1)
  }

  /** Upsert one row per check: the live hits with the new one appended, once more for each further naming. */
  function WriteRows(table: Hits, live: Hits, checks: seq<WindowCheck>, now: int): Hits {
    if checks == [] then table
    else
      var c, before := checks[|checks| - 1], checks[..|checks| - 1];
      var earlier := WriteRows(table, live, before, now);
      earlier[c.bucket := (if Names(before, c.bucket) then Get(earlier, c.bucket) else Get(live, c.bucket)) + [now]]
  }

  /** A bucket without a row is named twice: the store would insert its primary key a second time. */
  predicate InsertsTwice(table: Hits, checks: seq<WindowCheck>) {
    exists i, j :: 0 <= i < j < |checks| && checks[i].bucket == checks[j].bucket && checks[i].bucket !in table
  }

  datatype StoreError = DuplicateRow

  /** One committed unit of work, given the live rows it read; a refusal writes nothing. */
  function Settle(table: Hits, live: Hits, checks: seq<WindowCheck>, now: int): (Hits, Verdict)
    requires LimitsArePositive(checks)
  {
    var verdict := FirstFull(live, checks, 0);
    if verdict.Some? then (table, verdict) else (WriteRows(table, live, checks, now), None)
  }

  function TableStep(table: Hits, checks: seq<WindowCheck>, now: int): (Hits, Verdict)
    requires LimitsArePositive(checks)
  {
    Settle(table, LiveRows(table, checks, now), checks, now)
  }

  /** A named bucket's row and live list are the same list. */
  predicate SharesList(stored: Hits, read: Hits, named: seq<WindowCheck>, rows: Hits, live: Hits, b: Bucket) {
    && Get(live, b) == (if Names(named, b) then Get(rows, b) else Get(read, b))
    && (b in rows <==> b in stored || Names(named, b))
  }

  /** The loop's state after a prefix of the checks. */
  ghost predicate WrittenSoFar(stored: Hits, read: Hits, named: seq<WindowCheck>, now: int, rows: Hits, live: Hits) {
    && rows == WriteRows(stored, read, named, now) && !InsertsTwice(stored, named)
    && forall b: Bucket :: SharesList(stored, read, named, rows, live, b)
  }

  lemma WriteOneMore(stored: Hits, read: Hits, named: seq<WindowCheck>, i: nat, now: int, rows: Hits, live: Hits)
    requires |named| == i + 1 && WrittenSoFar(stored, read, named[..i], now, rows, live)
    requires named[i].bucket in stored || named[i].bucket !in rows
    ensures var b := named[i].bucket;
      var more := Get(live, b) + [now];
      WrittenSoFar(stored, read, named, now, rows[b := more], live[b := more])
  {
    var b, before := named[i].bucket, named[..i];
    var more := Get(live, b) + [now];
    NamedSoFar(named, i, stored);
    assert named[..i + 1] == named;
    assert SharesList(stored, read, before, rows, live, b);
    var rows', live' := rows[b := more], live[b := more];
    forall x: Bucket ensures SharesList(stored, read, named, rows', live', x) {
      ShareOneMore(stored, read, named, i, rows, live, more, x);
    }
  }

  lemma ShareOneMore(
    stored: Hits, read: Hits, named: seq<WindowCheck>, i: nat, rows: Hits, live: Hits, more: seq<int>, x: Bucket)
    requires |named| == i + 1 && SharesList(stored, read, named[..i], rows, live, x)
    ensures SharesList(stored, read, named, rows[named[i].bucket := more], live[named[i].bucket := more], x)
  {
    NamedSoFar(named, i, stored);
    assert named[..i + 1] == named;
  }

  lemma NamedSoFar(checks: seq<WindowCheck>, i: nat, stored: Hits)
    requires i < |checks|
    ensures checks[..i + 1][..i] == checks[..i]
    ensures forall b :: Names(checks[..i + 1], b) <==> Names(checks[..i], b) || b == checks[i].bucket
    ensures InsertsTwice(stored, checks[..i + 1])
       <==> InsertsTwice(stored, checks[..i]) || (Names(checks[..i], checks[i].bucket) && checks[i].bucket !in stored)
    ensures InsertsTwice(stored, checks[..i + 1]) ==> InsertsTwice(stored, checks)
  {
    forall b ensures Names(checks[..i + 1], b) <==> Names(checks[..i], b) || b == checks[i].bucket {
      if b == checks[i].bucket { assert checks[..i + 1][i].bucket == b; }
      if Names(checks[..i], b) {
        var k :| 0 <= k < i && checks[..i][k].bucket == b;
        assert checks[..i + 1][k].bucket == b;
      }
      if Names(checks[..i + 1], b) && b != checks[i].bucket {
        var k :| 0 <= k < i + 1 && checks[..i + 1][k].bucket == b;
        assert checks[..i][k].bucket == b;
      }
    }
    RepeatSoFar(checks, i, stored);
  }

  lemma RepeatSoFar(checks: seq<WindowCheck>, i: nat, stored: Hits)
    requires i < |checks|
    ensures InsertsTwice(stored, checks[..i + 1])
       <==> InsertsTwice(stored, checks[..i]) || (Names(checks[..i], checks[i].bucket) && checks[i].bucket !in stored)
    ensures InsertsTwice(stored, checks[..i + 1]) ==> InsertsTwice(stored, checks)
  {
    var before, after := checks[..i], checks[..i + 1];
    if InsertsTwice(stored, after) {
      var j, k :| 0 <= j < k < i + 1 && after[j].bucket == after[k].bucket && after[j].bucket !in stored;
      assert checks[j].bucket == checks[k].bucket;
      if k < i { assert before[j].bucket == before[k].bucket; } else { assert before[j].bucket == checks[i].bucket; }
    }
    if InsertsTwice(stored, before) {
      var j, k :| 0 <= j < k < i && before[j].bucket == before[k].bucket && before[j].bucket !in stored;
      assert after[j].bucket == after[k].bucket;
    }
    if Names(before, checks[i].bucket) && checks[i].bucket !in stored {
      var j :| 0 <= j < i && before[j].bucket == checks[i].bucket;
      assert after[j].bucket == after[i].bucket;
    }
  }

  class DbWindowStore {
    var rows: Hits

    constructor ()
      ensures rows == map[]
    {
      rows := map[];
    }

    /** One worker's unit of work once it holds every lock it needs. */
    method CheckAndRecordAll(checks: seq<WindowCheck>, now: int) returns (verdict: Result<Verdict, StoreError>)
      requires LimitsArePositive(checks)
      modifies this
      ensures var (table, answer) := TableStep(old(rows), checks, now);
        if answer.None? && InsertsTwice(old(rows), checks) then verdict == Err(DuplicateRow) && rows == old(rows)
        else verdict == Ok(answer) && rows == table
    {
      var before := rows;
      var live := ReadLive(checks, now);
      for index := 0 to |checks|
        invariant FirstFull(live, checks, 0) == FirstFull(live, checks, index)
      {
        var deque := Get(live, checks[index].bucket);
        if |deque| >= checks[index].limit {
          return Ok(Some(WindowRejection(index, Min(deque))));
        }
      }
      var written := Upsert(live, checks, now);
      if !written {
        rows := before;
        return Err(DuplicateRow);
      }
      return Ok(None);
    }

    method ReadLive(checks: seq<WindowCheck>, now: int) returns (live: Hits)
      ensures live == LiveRows(rows, checks, now)
    {
      live := map[];
      for i := 0 to |checks|
        invariant live == LiveRows(rows, checks[..i], now)
      {
        assert checks[..i + 1][..i] == checks[..i];
        var b, cutoff := checks[i].bucket, now - checks[i].window;
        if b !in live {
          live := live[b := Live(Get(rows, b), cutoff)];
        }
      }
      assert checks[..|checks|] == checks;
    }

    /** The recording loop; it stops when a flush would insert a row that the loop has inserted already. */
    method Upsert(read: Hits, checks: seq<WindowCheck>, now: int) returns (written: bool)
      modifies this
      ensures written <==> !InsertsTwice(old(rows), checks)
      ensures written ==> rows == WriteRows(old(rows), read, checks, now)
    {
      var live, stored := read, rows;
      for i := 0 to |checks|
        invariant WrittenSoFar(stored, read, checks[..i], now, rows, live)
      {
        var b := checks[i].bucket;
        NamedSoFar(checks, i, stored);
        assert SharesList(stored, read, checks[..i], rows, live, b);
        if b !in stored && b in rows {
          return false;
        }
        WriteOneMore(stored, read, checks[..i + 1], i, now, rows, live);
        live := live[b := Get(live, b) + [now]];
        rows := rows[b := live[b]];
      }
      assert checks[..|checks|] == checks;
      return true;
    }
  }

  // ---------------------------------------------------------------------------------------------
  // The history: every accepted hit, never trimmed
  // ---------------------------------------------------------------------------------------------

  /** The verdict when every accepted hit of the whole past is counted. */
  function Judge(history: Hits, checks: seq<WindowCheck>, now: int, from: nat): Verdict
    requires LimitsArePositive(checks) && from <= |checks|
    decreases |checks| - from
  {
    if from == |checks| then None
    else
      var live := Live(Get(history, checks[from].bucket), now - checks[from].window);
      if |live| >= checks[from].limit then Some(WindowRejection(from, live[0]))
      else Judge(history, checks, now, from + 1)
  }

  function HistoryStep(history: Hits, checks: seq<WindowCheck>, now: int): (Hits, Verdict)
    requires LimitsArePositive(checks)
  {
    var verdict := Judge(history, checks, now, 0);
    if verdict.Some? then (history, verdict) else (RecordAll(history, checks, now), None)
  }

  // ---------------------------------------------------------------------------------------------
  // Whichever store the deployment runs on
  // ---------------------------------------------------------------------------------------------

  datatype Backend = Memory | Table | History

  function Step(backend: Backend, store: Hits, checks: seq<WindowCheck>, now: int): (Hits, Verdict)
    requires LimitsArePositive(checks)
  {
    match backend
    case Memory => MemoryStep(store, checks, now)
    case Table => TableStep(store, checks, now)
    case History => HistoryStep(store, checks, now)
  }

  datatype Store = InMemory(memory: MemoryWindowStore) | Shared(table: DbWindowStore) {
    ghost function Repr(): set<object> {
      if InMemory? then {memory} else {table}
    }

    function Kind(): Backend {
      if InMemory? then Memory else Table
    }

    function Contents(): Hits
      reads Repr()
    {
      if InMemory? then memory.hits else table.rows
    }

    /** One step of the chosen store; only the shared one can fail, on a row it would insert twice. */
    method CheckAndRecordAll(checks: seq<WindowCheck>, now: int) returns (verdict: Result<Verdict, StoreError>)
      requires LimitsArePositive(checks)
      modifies Repr()
      ensures var (contents, answer) := Step(Kind(), old(Contents()), checks, now);
        if Shared? && answer.None? && InsertsTwice(old(Contents()), checks)
        then verdict == Err(DuplicateRow) && Contents() == old(Contents())
        else verdict == Ok(answer) && Contents() == contents
    {
      match this
      case InMemory(memory) =>
        var answer := memory.CheckAndRecordAll(checks, now);
        verdict := Ok(answer);
      case Shared(table) =>
        verdict := table.CheckAndRecordAll(checks, now);
    }
  }
}
