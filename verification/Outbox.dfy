/**
 The mail outbox: magic-link handles that fire once, and a dispatch that fires queued sends after
 commit, whose callbacks may themselves queue sends or deliver again.
 */
module Outbox {
  import opened Prelude

  /** How a send ends: MailDeliveryError is swallowed, any other exception is not. */
  datatype Ending = Delivered | MailError | Crash

  /** What code holding the outbox may do: queue a send, deliver the queue, deliver one link handle. */
  datatype Act = Add(entry: Entry) | Deliver | DeliverLink(link: nat)

  /** A queued send: a closure that does `acts` and then ends, or a link handle's `deliver`. */
  datatype Entry = Callback(acts: seq<Act>, ending: Ending) | Handle(link: nat)

  /** Entries are numbered in order of registration. */
  datatype Ticket = Ticket(number: nat, entry: Entry)

  /** `armed` holds the links whose send has not fired, with how that send will end. */
  datatype State = State(queue: seq<Ticket>, next: nat, fired: seq<nat>, armed: map<nat, Ending>, sent: seq<nat>)

  /** What is still to be executed, innermost call first. */
  datatype Task = Do(act: Act) | Fire(ticket: Ticket) | End(ending: Ending)

  function Dos(acts: seq<Act>): (r: seq<Task>)
    ensures |r| == |acts| && forall i :: 0 <= i < |r| ==> r[i] == Do(acts[i])
  {
    seq(|acts|, i requires 0 <= i < |acts| => Do(acts[i]))
  }

  function Fires(queue: seq<Ticket>): (r: seq<Task>)
    ensures |r| == |queue| && forall i :: 0 <= i < |r| ==> r[i] == Fire(queue[i])
  {
    seq(|queue|, i requires 0 <= i < |queue| => Fire(queue[i]))
  }

  // ---------------------------------------------------------------------------------------------
  // Nothing delivers for ever
  // ---------------------------------------------------------------------------------------------

  function EntryWeight(e: Entry): nat
    decreases e
  {
    if e.Callback? then 2 + ActsWeight(e.acts) else 1
  }

  function ActWeight(act: Act): nat
    decreases act
  {
    if act.Add? then 1 + EntryWeight(act.entry) else 1
  }

  function ActsWeight(acts: seq<Act>): nat
    decreases acts
  {
    if acts == [] then 0 else ActWeight(acts[0]) + ActsWeight(acts[1..])
  }

  function TaskWeight(t: Task): nat {
    match t
    case Do(act) => ActWeight(act)
    case Fire(ticket) => EntryWeight(ticket.entry)
    case End(_) => 1
  }

  function Weight(todo: seq<Task>): nat {
    if todo == [] then 0 else TaskWeight(todo[0]) + Weight(todo[1..])
  }

  lemma {:induction false} WeightJoin(a: seq<Task>, b: seq<Task>)
    ensures Weight(a + b) == Weight(a) + Weight(b)
  {
    if a == [] {
      assert a + b == b;
    } else {
      assert (a + b)[1..] == a[1..] + b;
      WeightJoin(a[1..], b);
    }
  }

  lemma {:induction false} WeightOfDos(acts: seq<Act>)
    ensures Weight(Dos(acts)) == ActsWeight(acts)
  {
    if acts != [] {
      assert Dos(acts)[1..] == Dos(acts[1..]);
      WeightOfDos(acts[1..]);
    }
  }

  // ---------------------------------------------------------------------------------------------
  // Execution
  // ---------------------------------------------------------------------------------------------

  function Queued(s: State, e: Entry): State {
    s.(queue := s.queue + [Ticket(s.next, e)], next := s.next + 1)
  }

  /** `PendingMagicLink.deliver`: the callback is cleared before it is called. */
  function FireLink(s: State, link: nat): State {
    if link in s.armed then s.(armed := s.armed - {link}, sent := s.sent + [link]) else s
  }

  predicate LinkCrashes(s: State, link: nat) {
    link in s.armed && s.armed[link] == Crash
  }

  /** One task: the state it leaves, what is to be executed next, and whether an exception escapes. */
  function Step(s: State, task: Task): (State, seq<Task>, bool) {
    match task
    case Do(Add(e)) => (Queued(s, e), [], true)
    case Do(Deliver) => (s.(queue := []), Fires(s.queue), true)
    case Do(DeliverLink(link)) => (FireLink(s, link), [], !LinkCrashes(s, link))
    case Fire(Ticket(number, Callback(acts, ending))) => (s.(fired := s.fired + [number]), Dos(acts) + [End(ending)], true)
    case Fire(Ticket(number, Handle(link))) =>
      (FireLink(s.(fired := s.fired + [number]), link), [], !LinkCrashes(s, link))
    case End(ending) => (s, [], ending != Crash)
  }

  lemma StepShrinks(s: State, task: Task)
    ensures var (s', more, _) := Step(s, task);
      Weight(Fires(s'.queue)) + Weight(more) < Weight(Fires(s.queue)) + TaskWeight(task)
  {
    match task
    case Do(Add(e)) =>
      var t := Ticket(s.next, e);
      assert Fires(s.queue + [t]) == Fires(s.queue) + [Fire(t)];
      WeightJoin(Fires(s.queue), [Fire(t)]);
      assert Weight([Fire(t)]) == EntryWeight(e) + Weight([Fire(t)][1..]);
    case Do(Deliver) =>
    case Do(DeliverLink(_)) =>
    case Fire(Ticket(_, Callback(acts, ending))) =>
      WeightJoin(Dos(acts), [End(ending)]);
      WeightOfDos(acts);
      assert Weight([End(ending)]) == 1 + Weight([End(ending)][1..]);
    case Fire(Ticket(_, Handle(_))) =>
    case End(_) =>
  }

  /** An escaping exception drops everything still to be executed. */
  function Run(s: State, todo: seq<Task>): (State, bool)
    decreases Weight(Fires(s.queue)) + Weight(todo)
  {
    if todo == [] then (s, true)
    else
      var (s', more, ok) := Step(s, todo[0]);
      if !ok then (s', false)
      else
        StepShrinks(s, todo[0]);
        WeightJoin(more, todo[1..]);
        Run(s', more + todo[1..])
  }

  lemma {:induction false} RunJoin(s: State, a: seq<Task>, b: seq<Task>)
    ensures Run(s, a + b) == if Run(s, a).1 then Run(Run(s, a).0, b) else Run(s, a)
    decreases Weight(Fires(s.queue)) + Weight(a)
  {
    if a == [] {
      assert a + b == b;
    } else {
      var (s', more, ok) := Step(s, a[0]);
      assert (a + b)[1..] == a[1..] + b;
      assert more + (a + b)[1..] == more + a[1..] + b;
      if ok {
        StepShrinks(s, a[0]);
        WeightJoin(more, a[1..]);
        RunJoin(s', more + a[1..], b);
      }
    }
  }

  lemma {:induction false} RunOne(s: State, task: Task)
    ensures var (s', more, ok) := Step(s, task);
      Run(s, [task]) == if ok then Run(s', more) else (s', false)
  {
    var more := Step(s, task).1;
    assert more + [task][1..] == more;
  }

  lemma {:induction false} RunCallback(s: State, number: nat, acts: seq<Act>, ending: Ending)
    ensures var inside := Run(s.(fired := s.fired + [number]), Dos(acts));
      Run(s, [Fire(Ticket(number, Callback(acts, ending)))]) == (inside.0, inside.1 && ending != Crash)
  {
    RunOne(s, Fire(Ticket(number, Callback(acts, ending))));
    RunJoin(s.(fired := s.fired + [number]), Dos(acts), [End(ending)]);
    RunOne(Run(s.(fired := s.fired + [number]), Dos(acts)).0, End(ending));
  }

  lemma {:induction false} RunHandle(s: State, number: nat, link: nat)
    ensures var s1 := s.(fired := s.fired + [number]);
      Run(s, [Fire(Ticket(number, Handle(link)))]) == (FireLink(s1, link), !LinkCrashes(s, link))
  {
    RunOne(s, Fire(Ticket(number, Handle(link))));
  }

  lemma {:induction false} RunShrinks(s: State, todo: seq<Task>)
    ensures Weight(Fires(Run(s, todo).0.queue)) <= Weight(Fires(s.queue)) + Weight(todo)
    decreases Weight(Fires(s.queue)) + Weight(todo)
  {
    if todo != [] {
      var (s', more, ok) := Step(s, todo[0]);
      StepShrinks(s, todo[0]);
      WeightJoin(more, todo[1..]);
      if ok { RunShrinks(s', more + todo[1..]); }
    }
  }

  // ---------------------------------------------------------------------------------------------
  // The dispatch object
  // ---------------------------------------------------------------------------------------------

  class PendingDispatch {
    var entries: seq<Ticket>
    /** Registrations so far, and what has fired, in order. */
    var next: nat
    var fired: seq<nat>
    /** The `_send_callback` of every link handle that still has one, and the links sent. */
    var armed: map<nat, Ending>
    var sent: seq<nat>

    constructor (armed: map<nat, Ending>)
      ensures View() == State([], 0, [], armed, [])
    {
      entries, next, fired, sent := [], 0, [], [];
      this.armed := armed;
    }

    function View(): State
      reads this
    {
      State(entries, next, fired, armed, sent)
    }

    method AddCallback(acts: seq<Act>, ending: Ending)
      modifies this
      ensures View() == Queued(old(View()), Callback(acts, ending))
    {
      entries := entries + [Ticket(next, Callback(acts, ending))];
      next := next + 1;
    }

    /** No handle, nothing to do: the enumeration guard returned none. */
    method AddPending(link: Option<nat>)
      modifies this
      ensures View() == if link.None? then old(View()) else Queued(old(View()), Handle(link.value))
    {
      if link.None? {
        return;
      }
      entries := entries + [Ticket(next, Handle(link.value))];
      next := next + 1;
    }

    method DeliverHandle(link: nat) returns (ok: bool)
      modifies this
      ensures View() == FireLink(old(View()), link) && ok == !LinkCrashes(old(View()), link)
    {
      if link !in armed {
        return true;
      }
      var ending := armed[link];
      armed := armed - {link};
      sent := sent + [link];
      return ending != Crash;
    }

    method DeliverAll() returns (ok: bool)
      modifies this
      ensures (View(), ok) == Run(old(View()), [Do(Deliver)])
      decreases Weight(Fires(entries)) + 1, 0
    {
      var snapshot := entries;
      entries := [];
      RunOne(old(View()), Do(Deliver));
      assert snapshot[0..] == snapshot;
      for i := 0 to |snapshot|
        invariant Run(View(), Fires(snapshot[i..])) == Run(old(View()), [Do(Deliver)])
        invariant Weight(Fires(entries)) + Weight(Fires(snapshot[i..])) <= Weight(Fires(old(entries)))
      {
        ghost var before := View();
        SplitFirst(snapshot, i);
        RunJoin(before, [Fire(snapshot[i])], Fires(snapshot[i + 1..]));
        RunShrinks(before, [Fire(snapshot[i])]);
        ok := FireTicket(snapshot[i]);
        if !ok {
          return false;
        }
      }
      return true;
    }

    method FireTicket(ticket: Ticket) returns (ok: bool)
      modifies this
      ensures (View(), ok) == Run(old(View()), [Fire(ticket)])
      decreases Weight(Fires(entries)) + EntryWeight(ticket.entry), 0
    {
      fired := fired + [ticket.number];
      match ticket.entry
      case Callback(acts, ending) =>
        RunCallback(old(View()), ticket.number, acts, ending);
        ok := Perform(acts);
        ok := ok && ending != Crash;
      case Handle(link) =>
        RunHandle(old(View()), ticket.number, link);
        ok := DeliverHandle(link);
    }

    method Perform(acts: seq<Act>) returns (ok: bool)
      modifies this
      ensures (View(), ok) == Run(old(View()), Dos(acts))
      decreases Weight(Fires(entries)) + ActsWeight(acts), 1
    {
      assert acts[0..] == acts;
      for i := 0 to |acts|
        invariant Run(View(), Dos(acts[i..])) == Run(old(View()), Dos(acts))
        invariant Weight(Fires(entries)) + ActsWeight(acts[i..]) <= Weight(Fires(old(entries))) + ActsWeight(acts)
      {
        ghost var before := View();
        assert acts[i..] == [acts[i]] + acts[i + 1..];
        assert Dos(acts[i..]) == [Do(acts[i])] + Dos(acts[i + 1..]);
        RunJoin(before, [Do(acts[i])], Dos(acts[i + 1..]));
        RunOne(before, Do(acts[i]));
        RunShrinks(before, [Do(acts[i])]);
        match acts[i] {
          case Add(Callback(more, ending)) => AddCallback(more, ending); ok := true;
          case Add(Handle(link)) => AddPending(Some(link)); ok := true;
          case Deliver => ok := DeliverAll();
          case DeliverLink(link) => ok := DeliverHandle(link);
        }
        if !ok {
          return false;
        }
      }
      return true;
    }
  }

  lemma SplitFirst(queue: seq<Ticket>, i: nat)
    requires i < |queue|
    ensures Fires(queue[i..]) == [Fire(queue[i])] + Fires(queue[i + 1..])
    ensures Weight(Fires(queue[i..])) == Weight([Fire(queue[i])]) + Weight(Fires(queue[i + 1..]))
    ensures Weight([Fire(queue[i])]) == EntryWeight(queue[i].entry)
  {
    WeightJoin([Fire(queue[i])], Fires(queue[i + 1..]));
    assert Fires(queue[i..]) == [Fire(queue[i])] + Fires(queue[i + 1..]);
    assert Weight([Fire(queue[i])]) == EntryWeight(queue[i].entry) + Weight([Fire(queue[i])][1..]);
  }

  // ---------------------------------------------------------------------------------------------
  // Each registration and each link fires at most once
  // ---------------------------------------------------------------------------------------------

  function Numbers(todo: seq<Task>): seq<nat> {
    if todo == [] then []
    else if todo[0].Fire? then [todo[0].ticket.number] + Numbers(todo[1..])
    else Numbers(todo[1..])
  }

  lemma {:induction false} NumbersJoin(a: seq<Task>, b: seq<Task>)
    ensures Numbers(a + b) == Numbers(a) + Numbers(b)
  {
    if a == [] {
      assert a + b == b;
    } else {
      assert (a + b)[1..] == a[1..] + b;
      NumbersJoin(a[1..], b);
    }
  }

  lemma {:induction false} NoNumbers(todo: seq<Task>)
    requires forall i :: 0 <= i < |todo| ==> !todo[i].Fire?
    ensures Numbers(todo) == []
  {
    if todo != [] { NoNumbers(todo[1..]); }
  }

  /** Where the registrations are: fired, about to fire, or queued. */
  function Places(s: State, todo: seq<Task>): multiset<nat> {
    multiset(s.fired) + multiset(Numbers(todo)) + multiset(Numbers(Fires(s.queue)))
  }

  ghost predicate Once(s: State, todo: seq<Task>) {
    && (forall k: nat :: Places(s, todo)[k] <= if k < s.next then 1 else 0)
    && (forall l: nat :: multiset(s.sent)[l] <= if l in s.armed then 0 else 1)
  }

  lemma NumbersOfOne(task: Task)
    ensures Numbers([task]) == if task.Fire? then [task.ticket.number] else []
  {
    assert [task][1..] == [];
  }

  lemma NumbersOfQueued(queue: seq<Ticket>, t: Ticket)
    ensures Numbers(Fires(queue + [t])) == Numbers(Fires(queue)) + [t.number]
  {
    assert Fires(queue + [t]) == Fires(queue) + [Fire(t)];
    NumbersJoin(Fires(queue), [Fire(t)]);
    NumbersOfOne(Fire(t));
  }

  predicate Registers(task: Task) {
    task.Do? && task.act.Add?
  }

  /** A step registers what it adds and moves the rest about. */
  ghost predicate Moves(s: State, task: Task, s': State, more: seq<Task>) {
    if Registers(task) then s'.next == s.next + 1 && Places(s', more) == Places(s, [task]) + multiset{s.next}
    else s'.next == s.next && Places(s', more) == Places(s, [task])
  }

  lemma AddMoves(s: State, e: Entry)
    ensures Moves(s, Do(Add(e)), Queued(s, e), [])
  {
    NumbersOfOne(Do(Add(e)));
    NumbersOfQueued(s.queue, Ticket(s.next, e));
    OneMoreIn(multiset(s.fired), Numbers(Fires(s.queue)), s.next);
  }

  lemma OneMoreIn(others: multiset<nat>, numbers: seq<nat>, k: nat)
    ensures others + multiset{} + multiset(numbers + [k]) == others + multiset{} + multiset(numbers) + multiset{k}
  {
  }

  lemma {:induction false} FireMoves(s: State, t: Ticket, s': State, more: seq<Task>)
    requires s'.fired == s.fired + [t.number] && s'.queue == s.queue && s'.next == s.next && Numbers(more) == []
    ensures Moves(s, Fire(t), s', more)
  {
    NumbersOfOne(Fire(t));
    assert multiset(s'.fired) == multiset(s.fired) + multiset{t.number};
  }

  lemma StepMoves(s: State, task: Task)
    ensures var (s', more, _) := Step(s, task); Moves(s, task, s', more)
  {
    var (s', more, _) := Step(s, task);
    match task
    case Do(Add(e)) => AddMoves(s, e);
    case Do(Deliver) => NumbersOfOne(task);
    case Do(DeliverLink(_)) => NumbersOfOne(task);
    case Fire(t) =>
      NoNumbers(more);
      FireMoves(s, t, s', more);
    case End(_) => NumbersOfOne(task);
  }

  lemma {:induction false} PlacesJoin(s: State, a: seq<Task>, b: seq<Task>)
    ensures Places(s, a + b) == Places(s, a) + multiset(Numbers(b))
  {
    NumbersJoin(a, b);
  }

  lemma SendsOnce(s: State, task: Task, l: nat)
    requires multiset(s.sent)[l] <= if l in s.armed then 0 else 1
    ensures var s' := Step(s, task).0; multiset(s'.sent)[l] <= if l in s'.armed then 0 else 1
  {
  }

  lemma CountsStay(before: multiset<nat>, after: multiset<nat>, next: nat, next': nat)
    requires forall k: nat :: before[k] <= if k < next then 1 else 0
    requires (after == before && next' == next) || (after == before + multiset{next} && next' == next + 1)
    ensures forall k: nat :: after[k] <= if k < next' then 1 else 0
  {
  }

  lemma StepMovesPlaces(s: State, task: Task, rest: seq<Task>)
    ensures var (s', more, _) := Step(s, task);
      var before, after := Places(s, [task] + rest), Places(s', more + rest);
      (after == before && s'.next == s.next) || (after == before + multiset{s.next} && s'.next == s.next + 1)
  {
    var (s', more, _) := Step(s, task);
    PlacesJoin(s', more, rest);
    PlacesJoin(s, [task], rest);
    StepMoves(s, task);
    MoveBehind(Places(s, [task]), Places(s', more), multiset(Numbers(rest)), s.next);
  }

  lemma MoveBehind(before: multiset<nat>, after: multiset<nat>, rest: multiset<nat>, k: nat)
    ensures after == before + multiset{k} ==> after + rest == before + rest + multiset{k}
  {
  }

  lemma StepKeepsOnce(s: State, task: Task, rest: seq<Task>)
    requires Once(s, [task] + rest)
    ensures var (s', more, _) := Step(s, task); Once(s', more + rest)
  {
    var (s', more, _) := Step(s, task);
    StepMovesPlaces(s, task, rest);
    CountsStay(Places(s, [task] + rest), Places(s', more + rest), s.next, s'.next);
    forall l: nat ensures multiset(s'.sent)[l] <= if l in s'.armed then 0 else 1 {
      SendsOnce(s, task, l);
    }
  }

  lemma {:induction false} RunKeepsOnce(s: State, todo: seq<Task>)
    requires Once(s, todo)
    ensures Once(Run(s, todo).0, [])
    decreases Weight(Fires(s.queue)) + Weight(todo)
  {
    if todo == [] {
    } else {
      var (s', more, ok) := Step(s, todo[0]);
      assert todo == [todo[0]] + todo[1..];
      StepKeepsOnce(s, todo[0], todo[1..]);
      if ok {
        StepShrinks(s, todo[0]);
        WeightJoin(more, todo[1..]);
        RunKeepsOnce(s', more + todo[1..]);
      } else {
        forall k: nat ensures Places(s', [])[k] <= Places(s', more + todo[1..])[k] {}
      }
    }
  }

  lemma {:induction false} CountOfTwo(s: seq<nat>, i: nat, j: nat)
    requires i < j < |s| && s[i] == s[j]
    ensures multiset(s)[s[i]] >= 2
  {
    assert s == s[..j] + [s[j]] + s[j + 1..];
    assert s[i] in s[..j];
    assert multiset(s) == multiset(s[..j]) + multiset{s[j]} + multiset(s[j + 1..]);
  }

  /**
   Over any program of adds, deliveries and re-entrant deliveries, however its sends end: no registration fires
   twice, and no link is sent twice.
   */
  lemma EachFiresAtMostOnce(armed: map<nat, Ending>, program: seq<Act>)
    ensures var s := Run(State([], 0, [], armed, []), Dos(program)).0;
      NoRepeats(s.fired) && NoRepeats(s.sent)
  {
    var start := State([], 0, [], armed, []);
    NoNumbers(Dos(program));
    RunKeepsOnce(start, Dos(program));
    var s := Run(start, Dos(program)).0;
    forall i, j | 0 <= i < j < |s.fired| ensures s.fired[i] != s.fired[j] {
      assert Places(s, [])[s.fired[i]] <= 1;
      if s.fired[i] == s.fired[j] { CountOfTwo(s.fired, i, j); }
    }
    forall i, j | 0 <= i < j < |s.sent| ensures s.sent[i] != s.sent[j] {
      assert multiset(s.sent)[s.sent[i]] <= 1;
      if s.sent[i] == s.sent[j] { CountOfTwo(s.sent, i, j); }
    }
  }
}
