/** Order, completeness and the commit-before-send boundary of the mail outbox. */
module OutboxTheorems {
  import opened Prelude
  import opened Outbox

  // ---------------------------------------------------------------------------------------------
  // Registration order
  // ---------------------------------------------------------------------------------------------

  /** What queued callbacks may do with the outbox they are in. */
  datatype Allowed = Allowed(canAdd: bool, canDeliver: bool)

  predicate EntryOk(c: Allowed, e: Entry)
    decreases e
  {
    e.Callback? ==> ActsOk(c, e.acts)
  }

  predicate ActOk(c: Allowed, act: Act)
    decreases act
  {
    match act
    case Add(e) => c.canAdd && EntryOk(c, e)
    case Deliver => c.canDeliver
    case DeliverLink(_) => true
  }

  predicate ActsOk(c: Allowed, acts: seq<Act>)
    decreases acts
  {
    acts != [] ==> ActOk(c, acts[0]) && ActsOk(c, acts[1..])
  }

  /** The program around the outbox may add and deliver freely; what it adds is restricted. */
  predicate TaskOk(c: Allowed, t: Task) {
    match t
    case Do(Add(e)) => EntryOk(c, e)
    case Fire(ticket) => EntryOk(c, ticket.entry)
    case _ => true
  }

  predicate TasksOk(c: Allowed, todo: seq<Task>) {
    forall i :: 0 <= i < |todo| ==> TaskOk(c, todo[i])
  }

  lemma {:induction false} ActsAreOk(c: Allowed, acts: seq<Act>, i: nat)
    requires ActsOk(c, acts) && i < |acts|
    ensures ActOk(c, acts[i])
  {
    if i > 0 { ActsAreOk(c, acts[1..], i - 1); }
  }

  predicate NoFire(todo: seq<Task>) {
    forall i :: 0 <= i < |todo| ==> !todo[i].Fire?
  }

  /** Nothing fires behind a task of the restricted kind. */
  predicate IsLate(c: Allowed, t: Task) {
    t.Do? && if c.canAdd then t.act.Deliver? else t.act.Add?
  }

  ghost predicate LateTasksAreLast(c: Allowed, todo: seq<Task>) {
    forall i, j :: 0 <= i < j < |todo| && IsLate(c, todo[i]) ==> !todo[j].Fire?
  }

  ghost predicate IncreasingBelow(s: seq<nat>, bound: nat) {
    && (forall i, j :: 0 <= i < j < |s| ==> s[i] < s[j])
    && (forall i :: 0 <= i < |s| ==> s[i] < bound)
  }

  function InLine(s: State, todo: seq<Task>): seq<nat> {
    s.fired + Numbers(todo) + Numbers(Fires(s.queue))
  }

  ghost predicate Ordered(c: Allowed, s: State, todo: seq<Task>) {
    && IncreasingBelow(InLine(s, todo), s.next)
    && TasksOk(c, todo) && TasksOk(c, Fires(s.queue))
    && LateTasksAreLast(c, todo)
    && (!c.canAdd ==> s.queue == [] || NoFire(todo))
  }

  lemma {:induction false} RestOfLine(todo: seq<Task>)
    requires todo != []
    ensures Numbers(todo) == (if todo[0].Fire? then [todo[0].ticket.number] else []) + Numbers(todo[1..])
  {
  }

  lemma AddKeepsOrder(c: Allowed, s: State, todo: seq<Task>, e: Entry)
    requires !(c.canAdd && c.canDeliver) && todo != [] && todo[0] == Do(Add(e)) && Ordered(c, s, todo)
    ensures Ordered(c, Queued(s, e), todo[1..])
  {
    var t := Ticket(s.next, e);
    NumbersOfQueued(s.queue, t);
    assert InLine(Queued(s, e), todo[1..]) == InLine(s, todo) + [s.next];
    assert Fires(s.queue + [t]) == Fires(s.queue) + [Fire(t)];
  }

  lemma DeliverKeepsOrder(c: Allowed, s: State, todo: seq<Task>)
    requires !(c.canAdd && c.canDeliver) && todo != [] && todo[0] == Do(Deliver) && Ordered(c, s, todo)
    ensures Ordered(c, s.(queue := []), Fires(s.queue) + todo[1..])
  {
    var rest := todo[1..];
    NumbersJoin(Fires(s.queue), rest);
    if s.queue == [] {
      assert Fires(s.queue) + rest == rest;
    } else {
      assert NoFire(rest);
      NoNumbers(rest);
    }
    assert InLine(s.(queue := []), Fires(s.queue) + rest) == InLine(s, todo);
  }

  lemma FireKeepsOrder(c: Allowed, s: State, todo: seq<Task>)
    requires !(c.canAdd && c.canDeliver) && todo != [] && todo[0].Fire? && Ordered(c, s, todo)
    ensures var (s', more, _) := Step(s, todo[0]); Ordered(c, s', more + todo[1..])
  {
    var (s', more, _) := Step(s, todo[0]);
    FireKeepsLine(s, todo);
    assert TaskOk(c, todo[0]);
    CallbacksAreRestricted(c, s, todo[0]);
    RestOfTasks(c, todo);
    RestrictedInFront(c, more, todo[1..]);
  }

  lemma RestOfTasks(c: Allowed, todo: seq<Task>)
    requires todo != [] && TasksOk(c, todo) && LateTasksAreLast(c, todo)
    ensures TasksOk(c, todo[1..]) && LateTasksAreLast(c, todo[1..])
  {
  }

  /** The fired number moves from the tasks to the record: the line stays as it is. */
  lemma FireKeepsLine(s: State, todo: seq<Task>)
    requires todo != [] && todo[0].Fire?
    ensures var (s', more, _) := Step(s, todo[0]);
      InLine(s', more + todo[1..]) == InLine(s, todo) && s'.next == s.next && s'.queue == s.queue
  {
    var (s', more, _) := Step(s, todo[0]);
    NoNumbers(more);
    NumbersJoin(more, todo[1..]);
    assert Numbers(more + todo[1..]) == Numbers(todo[1..]);
    RestOfLine(todo);
    HeadMovesOver(s.fired, todo[0].ticket.number, Numbers(todo[1..]), Numbers(Fires(s.queue)));
  }

  lemma HeadMovesOver(a: seq<nat>, k: nat, b: seq<nat>, c: seq<nat>)
    ensures a + [k] + b + c == a + ([k] + b) + c
  {
  }

  /** What a fired entry does is allowed, and nothing of the restricted kind. */
  lemma CallbacksAreRestricted(c: Allowed, s: State, task: Task)
    requires !(c.canAdd && c.canDeliver) && task.Fire? && TaskOk(c, task)
    ensures var more := Step(s, task).1;
      forall i :: 0 <= i < |more| ==> TaskOk(c, more[i]) && !IsLate(c, more[i]) && !more[i].Fire?
  {
    var more, entry := Step(s, task).1, task.ticket.entry;
    if entry.Callback? {
      forall i | 0 <= i < |more| ensures TaskOk(c, more[i]) && !IsLate(c, more[i]) && !more[i].Fire? {
        if i < |entry.acts| { ActsAreOk(c, entry.acts, i); }
      }
    }
  }

  lemma RestrictedInFront(c: Allowed, more: seq<Task>, rest: seq<Task>)
    requires forall i :: 0 <= i < |more| ==> TaskOk(c, more[i]) && !IsLate(c, more[i]) && !more[i].Fire?
    requires TasksOk(c, rest) && LateTasksAreLast(c, rest)
    ensures TasksOk(c, more + rest) && LateTasksAreLast(c, more + rest)
  {
  }

  lemma StepKeepsOrder(c: Allowed, s: State, todo: seq<Task>)
    requires !(c.canAdd && c.canDeliver) && todo != [] && Ordered(c, s, todo)
    ensures var (s', more, _) := Step(s, todo[0]); Ordered(c, s', more + todo[1..])
  {
    var (s', more, _) := Step(s, todo[0]);
    if todo[0].Fire? {
      FireKeepsOrder(c, s, todo);
    } else if todo[0] == Do(Deliver) {
      DeliverKeepsOrder(c, s, todo);
    } else {
      assert more + todo[1..] == todo[1..];
      if todo[0].Do? && todo[0].act.Add? {
        AddKeepsOrder(c, s, todo, todo[0].act.entry);
      } else {
        SkipKeepsOrder(c, s, todo, s');
      }
    }
  }

  lemma SkipKeepsOrder(c: Allowed, s: State, todo: seq<Task>, s': State)
    requires todo != [] && !todo[0].Fire? && Ordered(c, s, todo)
    requires s'.fired == s.fired && s'.queue == s.queue && s'.next == s.next
    ensures Ordered(c, s', todo[1..])
  {
    assert InLine(s', todo[1..]) == InLine(s, todo);
  }

  lemma {:induction false} RunKeepsOrder(c: Allowed, s: State, todo: seq<Task>)
    requires !(c.canAdd && c.canDeliver) && Ordered(c, s, todo)
    ensures IncreasingBelow(Run(s, todo).0.fired, Run(s, todo).0.next)
    decreases Weight(Fires(s.queue)) + Weight(todo)
  {
    if todo == [] {
      FiredFirst(s, todo);
    } else {
      var (s', more, ok) := Step(s, todo[0]);
      StepKeepsOrder(c, s, todo);
      if ok {
        StepShrinks(s, todo[0]);
        WeightJoin(more, todo[1..]);
        RunKeepsOrder(c, s', more + todo[1..]);
      } else {
        FiredFirst(s', more + todo[1..]);
      }
    }
  }

  lemma FiredFirst(s: State, todo: seq<Task>)
    requires IncreasingBelow(InLine(s, todo), s.next)
    ensures IncreasingBelow(s.fired, s.next)
  {
    forall i | 0 <= i < |s.fired| ensures s.fired[i] == InLine(s, todo)[i] {}
  }

  function Fresh(armed: map<nat, Ending>): State {
    State([], 0, [], armed, [])
  }

  /** Sends fire in the order they were registered. */
  ghost predicate InRegistrationOrder(armed: map<nat, Ending>, program: seq<Act>) {
    forall i, j :: 0 <= i < j < |Run(Fresh(armed), Dos(program)).0.fired| ==>
      Run(Fresh(armed), Dos(program)).0.fired[i] < Run(Fresh(armed), Dos(program)).0.fired[j]
  }

  ghost predicate ProgramOk(c: Allowed, program: seq<Act>) {
    TasksOk(c, Dos(program))
  }

  lemma RestrictedCallbacksKeepOrder(c: Allowed, armed: map<nat, Ending>, program: seq<Act>)
    requires !(c.canAdd && c.canDeliver) && ProgramOk(c, program)
    ensures InRegistrationOrder(armed, program)
  {
    NoNumbers(Dos(program));
    RunKeepsOrder(c, Fresh(armed), Dos(program));
  }

  lemma {:induction false} RunStep(s: State, todo: seq<Task>, s': State, todo': seq<Task>)
    requires todo != [] && Step(s, todo[0]).2 && Step(s, todo[0]).0 == s' && todo' == Step(s, todo[0]).1 + todo[1..]
    ensures Run(s, todo) == Run(s', todo')
  {
  }

  const QUIET := Callback([], Delivered)
  const REENTRANT := Callback([Add(QUIET), Deliver], Delivered)

  /** A callback that queues a send and delivers again puts it ahead of the callback registered next. */
  lemma ReentryBreaksOrder(armed: map<nat, Ending>)
    ensures Run(Fresh(armed), Dos([Add(REENTRANT), Add(QUIET), Deliver])).0.fired == [0, 2, 1]
  {
    var done := End(Delivered);
    var t0, t1 := Ticket(0, REENTRANT), Ticket(1, QUIET);
    var s0 := Fresh(armed);
    var s1 := State([t0], 1, [], armed, []);
    var s2 := State([t0, t1], 2, [], armed, []);
    var s3 := State([], 2, [], armed, []);
    var s4 := State([], 2, [0], armed, []);
    assert Dos([Add(REENTRANT), Add(QUIET), Deliver]) == [Do(Add(REENTRANT)), Do(Add(QUIET)), Do(Deliver)];
    RunStep(s0, [Do(Add(REENTRANT)), Do(Add(QUIET)), Do(Deliver)], s1, [Do(Add(QUIET)), Do(Deliver)]);
    RunStep(s1, [Do(Add(QUIET)), Do(Deliver)], s2, [Do(Deliver)]);
    assert Fires([t0, t1]) == [Fire(t0), Fire(t1)];
    RunStep(s2, [Do(Deliver)], s3, [Fire(t0), Fire(t1)]);
    assert Dos([Add(QUIET), Deliver]) == [Do(Add(QUIET)), Do(Deliver)];
    RunStep(s3, [Fire(t0), Fire(t1)], s4, [Do(Add(QUIET)), Do(Deliver), done, Fire(t1)]);
    InsideTheCallback(armed);
  }

  /** From inside the first callback on. */
  lemma InsideTheCallback(armed: map<nat, Ending>)
    ensures Run(State([], 2, [0], armed, []),
                [Do(Add(QUIET)), Do(Deliver), End(Delivered), Fire(Ticket(1, QUIET))]).0.fired == [0, 2, 1]
  {
    var done, t1, t2 := End(Delivered), Ticket(1, QUIET), Ticket(2, QUIET);
    var s4 := State([], 2, [0], armed, []);
    var s5 := State([t2], 3, [0], armed, []);
    var s6 := State([], 3, [0], armed, []);
    var s7 := State([], 3, [0, 2], armed, []);
    var s8 := State([], 3, [0, 2, 1], armed, []);
    RunStep(s4, [Do(Add(QUIET)), Do(Deliver), done, Fire(t1)], s5, [Do(Deliver), done, Fire(t1)]);
    assert Fires([t2]) == [Fire(t2)];
    RunStep(s5, [Do(Deliver), done, Fire(t1)], s6, [Fire(t2), done, Fire(t1)]);
    assert Dos([]) == [];
    RunStep(s6, [Fire(t2), done, Fire(t1)], s7, [done, done, Fire(t1)]);
    RunStep(s7, [done, done, Fire(t1)], s7, [done, Fire(t1)]);
    RunStep(s7, [done, Fire(t1)], s7, [Fire(t1)]);
    RunStep(s7, [Fire(t1)], s8, [done]);
    RunStep(s8, [done], s8, []);
  }

  lemma {:induction false} ReentrantIsAllowed(c: Allowed)
    requires c.canAdd && c.canDeliver
    ensures EntryOk(c, QUIET) && EntryOk(c, REENTRANT)
  {
    assert ActsOk(c, []);
    assert EntryOk(c, QUIET);
    assert ActOk(c, Add(QUIET)) && ActOk(c, Deliver);
    assert [Deliver][1..] == [] && ActsOk(c, [Deliver]);
    assert [Add(QUIET), Deliver][1..] == [Deliver];
  }

  /** Order is kept by every program of such callbacks exactly when they may not both queue and deliver. */
  lemma OrderHoldsIffNotBoth(c: Allowed)
    ensures (forall armed: map<nat, Ending>, program: seq<Act> :: ProgramOk(c, program) ==> InRegistrationOrder(armed, program))
       <==> !(c.canAdd && c.canDeliver)
  {
    if c.canAdd && c.canDeliver {
      var program := [Add(REENTRANT), Add(QUIET), Deliver];
      ReentryBreaksOrder(map[]);
      ReentrantIsAllowed(c);
      assert ProgramOk(c, program);
      var fired := Run(Fresh(map[]), Dos(program)).0.fired;
      assert fired[1] == 2 && fired[2] == 1;
      assert !InRegistrationOrder(map[], program);
    } else {
      forall armed: map<nat, Ending>, program: seq<Act> | ProgramOk(c, program) ensures InRegistrationOrder(armed, program) {
        RestrictedCallbacksKeepOrder(c, armed, program);
      }
    }
  }

  // ---------------------------------------------------------------------------------------------
  // Mail errors stop nothing; other exceptions drop the rest for good
  // ---------------------------------------------------------------------------------------------

  predicate Calm(e: Entry)
    decreases e
  {
    e.Callback? ==> e.ending != Crash && CalmActs(e.acts)
  }

  predicate CalmActs(acts: seq<Act>)
    decreases acts
  {
    acts != [] ==> CalmAct(acts[0]) && CalmActs(acts[1..])
  }

  predicate CalmAct(act: Act)
    decreases act
  {
    act.Add? ==> Calm(act.entry)
  }

  predicate CalmTask(t: Task) {
    match t
    case Do(act) => CalmAct(act)
    case Fire(ticket) => Calm(ticket.entry)
    case End(ending) => ending != Crash
  }

  ghost predicate CalmState(s: State, todo: seq<Task>) {
    && (forall i :: 0 <= i < |todo| ==> CalmTask(todo[i]))
    && (forall i :: 0 <= i < |s.queue| ==> Calm(s.queue[i].entry))
    && (forall l :: l in s.armed ==> s.armed[l] != Crash)
  }

  lemma {:induction false} CalmActAt(acts: seq<Act>, i: nat)
    requires CalmActs(acts) && i < |acts|
    ensures CalmAct(acts[i])
  {
    if i > 0 { CalmActAt(acts[1..], i - 1); }
  }

  lemma StepKeepsCalm(s: State, todo: seq<Task>)
    requires todo != [] && CalmState(s, todo)
    ensures var (s', more, ok) := Step(s, todo[0]); ok && CalmState(s', more + todo[1..]) && s.fired <= s'.fired
  {
    var (s', more, ok) := Step(s, todo[0]);
    assert CalmTask(todo[0]);
    if todo[0].Fire? && todo[0].ticket.entry.Callback? {
      var acts := todo[0].ticket.entry.acts;
      forall i | 0 <= i < |more| ensures CalmTask(more[i]) {
        if i < |acts| { CalmActAt(acts, i); }
      }
    }
  }

  /** Everything about to fire does fire. */
  lemma {:induction false} CalmRunsFinish(s: State, todo: seq<Task>)
    requires CalmState(s, todo)
    ensures Run(s, todo).1 && s.fired <= Run(s, todo).0.fired
    ensures forall k :: k in Numbers(todo) ==> k in Run(s, todo).0.fired
    decreases Weight(Fires(s.queue)) + Weight(todo)
  {
    if todo != [] {
      var (s', more, ok) := Step(s, todo[0]);
      StepKeepsCalm(s, todo);
      StepShrinks(s, todo[0]);
      WeightJoin(more, todo[1..]);
      CalmRunsFinish(s', more + todo[1..]);
      NumbersJoin(more, todo[1..]);
      if todo[0].Fire? {
        assert todo[0].ticket.number == s'.fired[|s.fired|];
      }
    }
  }

  /** When sends fail with nothing worse than a mail error, one delivery fires every queued entry. */
  lemma {:induction false} MailErrorsStopNothing(s: State)
    requires CalmState(s, [])
    ensures Run(s, [Do(Deliver)]).1
    ensures forall i :: 0 <= i < |s.queue| ==> s.queue[i].number in Run(s, [Do(Deliver)]).0.fired
  {
    RunOne(s, Do(Deliver));
    CalmRunsFinish(s.(queue := []), Fires(s.queue));
    forall i | 0 <= i < |s.queue| ensures s.queue[i].number in Numbers(Fires(s.queue)) {
      NumberAt(s.queue, i);
    }
  }

  lemma {:induction false} NumberAt(queue: seq<Ticket>, i: nat)
    requires i < |queue|
    ensures queue[i].number in Numbers(Fires(queue))
  {
    assert Fires(queue)[1..] == Fires(queue[1..]);
    if i > 0 { NumberAt(queue[1..], i - 1); }
  }

  /** Where whatever fires, waits or is sent afterwards can have come from. */
  ghost predicate ComesFrom(s: State, todo: seq<Task>, s': State) {
    && s.next <= s'.next
    && (forall k :: k in s'.fired ==> k in s.fired || k in Numbers(todo) || k in Numbers(Fires(s.queue)) || k >= s.next)
    && (forall k :: k in Numbers(Fires(s'.queue)) ==> k in Numbers(Fires(s.queue)) || k >= s.next)
    && (forall l :: l in s'.sent ==> l in s.sent || l in s.armed)
    && s'.armed.Keys <= s.armed.Keys
  }

  lemma {:induction false} StepComesFrom(s: State, task: Task, rest: seq<Task>)
    ensures var (s', more, _) := Step(s, task);
      && ComesFrom(s, [task] + rest, s')
      && (forall k :: k in Numbers(more + rest) ==> k in Numbers([task] + rest) || k in Numbers(Fires(s.queue)))
  {
    var (s', more, _) := Step(s, task);
    NumbersJoin(more, rest);
    NumbersJoin([task], rest);
    NumbersOfOne(task);
    match task
    case Do(Add(e)) => NumbersOfQueued(s.queue, Ticket(s.next, e));
    case Fire(_) => NoNumbers(more);
    case _ =>
  }

  lemma {:induction false} RunComesFrom(s: State, todo: seq<Task>)
    ensures ComesFrom(s, todo, Run(s, todo).0)
    decreases Weight(Fires(s.queue)) + Weight(todo)
  {
    if todo != [] {
      var (s', more, ok) := Step(s, todo[0]);
      assert todo == [todo[0]] + todo[1..];
      StepComesFrom(s, todo[0], todo[1..]);
      if ok {
        StepShrinks(s, todo[0]);
        WeightJoin(more, todo[1..]);
        RunComesFrom(s', more + todo[1..]);
      }
    }
  }

  /** What a delivery leaves unfired never fires, whatever is delivered later. */
  lemma {:induction false} DroppedForGood(s: State, later: seq<Act>, k: nat)
    requires k < s.next && k !in s.fired
    requires k !in Run(s, [Do(Deliver)]).0.fired
    ensures k !in Run(Run(s, [Do(Deliver)]).0, Dos(later)).0.fired
  {
    var s' := Run(s, [Do(Deliver)]).0;
    RunOne(s, Do(Deliver));
    RunComesFrom(s.(queue := []), Fires(s.queue));
    RunComesFrom(s', Dos(later));
    NoNumbers(Dos(later));
  }

  // ---------------------------------------------------------------------------------------------
  // Which entries a delivery fires
  // ---------------------------------------------------------------------------------------------

  /** The delivery up to entry `i`: its queue taken over, the entries before `i` executed. */
  function Before(s: State, i: nat): (State, bool)
    requires i <= |s.queue|
  {
    Run(s.(queue := []), Fires(s.queue[..i]))
  }

  lemma {:induction false} DeliverySplits(s: State, i: nat)
    requires i < |s.queue|
    ensures Run(s, [Do(Deliver)]) ==
      if Before(s, i).1 then Run(Before(s, i).0, [Fire(s.queue[i])] + Fires(s.queue[i + 1..])) else Before(s, i)
  {
    RunOne(s, Do(Deliver));
    assert Fires(s.queue) == Fires(s.queue[..i]) + ([Fire(s.queue[i])] + Fires(s.queue[i + 1..]));
    RunJoin(s.(queue := []), Fires(s.queue[..i]), [Fire(s.queue[i])] + Fires(s.queue[i + 1..]));
  }

  /** Firing only ever adds to the record. */
  lemma {:induction false} FiredGrows(s: State, todo: seq<Task>)
    ensures s.fired <= Run(s, todo).0.fired
    decreases Weight(Fires(s.queue)) + Weight(todo)
  {
    if todo != [] {
      var (s', more, ok) := Step(s, todo[0]);
      assert s.fired <= s'.fired;
      if ok {
        StepShrinks(s, todo[0]);
        WeightJoin(more, todo[1..]);
        FiredGrows(s', more + todo[1..]);
      }
    }
  }

  lemma {:induction false} FiresNext(s: State, t: Ticket, rest: seq<Task>)
    ensures t.number in Run(s, [Fire(t)] + rest).0.fired
  {
    var todo := [Fire(t)] + rest;
    var (s', more, ok) := Step(s, todo[0]);
    assert t.number in s'.fired by {
      assert s'.fired[|s.fired|] == t.number;
    }
    if ok {
      FiredGrows(s', more + todo[1..]);
    }
  }

  /** An entry's number is its own: nothing before it in the queue, and nothing fired, carries it. */
  ghost predicate Numbered(s: State) {
    && (forall i, j :: 0 <= i < j < |s.queue| ==> s.queue[i].number != s.queue[j].number)
    && (forall i :: 0 <= i < |s.queue| ==> s.queue[i].number < s.next && s.queue[i].number !in s.fired)
  }

  lemma {:induction false} NumbersOfFires(queue: seq<Ticket>, k: nat)
    requires k in Numbers(Fires(queue))
    ensures exists i :: 0 <= i < |queue| && queue[i].number == k
  {
    assert Fires(queue)[1..] == Fires(queue[1..]);
    if queue[0].number != k {
      NumbersOfFires(queue[1..], k);
      var i :| 0 <= i < |queue[1..]| && queue[1..][i].number == k;
      assert queue[i + 1].number == k;
    }
  }

  /** In any queue, entry `i` fires in a delivery exactly when nothing before it lets an exception escape. */
  lemma {:induction false} FiresIffNothingEscapedBefore(s: State, i: nat)
    requires Numbered(s) && i < |s.queue|
    ensures s.queue[i].number in Run(s, [Do(Deliver)]).0.fired <==> Before(s, i).1
  {
    DeliverySplits(s, i);
    if Before(s, i).1 {
      FiresNext(Before(s, i).0, s.queue[i], Fires(s.queue[i + 1..]));
    } else {
      RunComesFrom(s.(queue := []), Fires(s.queue[..i]));
      if s.queue[i].number in Numbers(Fires(s.queue[..i])) {
        NumbersOfFires(s.queue[..i], s.queue[i].number);
      }
    }
  }

  /** The outbox a program of adds and deliveries leaves is numbered. */
  lemma ProgramsLeaveItNumbered(armed: map<nat, Ending>, program: seq<Act>)
    ensures Numbered(Run(Fresh(armed), Dos(program)).0)
  {
    var s := Run(Fresh(armed), Dos(program)).0;
    NoNumbers(Dos(program));
    RunKeepsOnce(Fresh(armed), Dos(program));
    forall i | 0 <= i < |s.queue| ensures s.queue[i].number < s.next && s.queue[i].number !in s.fired {
      NumberAt(s.queue, i);
      assert Places(s, [])[s.queue[i].number] <= if s.queue[i].number < s.next then 1 else 0;
    }
    forall i, j | 0 <= i < j < |s.queue| ensures s.queue[i].number != s.queue[j].number {
      assert Places(s, [])[s.queue[i].number] <= 1;
      if s.queue[i].number == s.queue[j].number { NumbersRepeat(s.queue, i, j); }
    }
  }

  lemma {:induction false} NumbersAre(queue: seq<Ticket>)
    ensures |Numbers(Fires(queue))| == |queue|
    ensures forall i :: 0 <= i < |queue| ==> Numbers(Fires(queue))[i] == queue[i].number
  {
    if queue != [] {
      assert Fires(queue)[1..] == Fires(queue[1..]);
      NumbersAre(queue[1..]);
    }
  }

  lemma NumbersRepeat(queue: seq<Ticket>, i: nat, j: nat)
    requires i < j < |queue| && queue[i].number == queue[j].number
    ensures multiset(Numbers(Fires(queue)))[queue[i].number] >= 2
  {
    NumbersAre(queue);
    CountOfTwo(Numbers(Fires(queue)), i, j);
  }

  // ---------------------------------------------------------------------------------------------
  // The same, told from the queue
  // ---------------------------------------------------------------------------------------------

  /** A callback that leaves the delivering of the outbox to others. */
  predicate NeverDelivers(e: Entry) {
    e.Callback? ==> forall i :: 0 <= i < |e.acts| ==> !e.acts[i].Deliver?
  }

  /** The entry ends in a crash, or delivers a link whose send will. */
  predicate Crashes(armed: map<nat, Ending>, e: Entry) {
    match e
    case Callback(acts, ending) => ending == Crash || exists i :: 0 <= i < |acts| && CrashingAct(armed, acts[i])
    case Handle(link) => link in armed && armed[link] == Crash
  }

  predicate CrashingAct(armed: map<nat, Ending>, act: Act) {
    act.DeliverLink? && act.link in armed && armed[act.link] == Crash
  }

  /** The links that will crash: a run that has not crashed has fired none of them. */
  ghost predicate SameDanger(armed: map<nat, Ending>, armed': map<nat, Ending>) {
    forall l :: (l in armed && armed[l] == Crash) <==> (l in armed' && armed'[l] == Crash)
  }

  /** A run of acts that add and deliver links: it escapes exactly when it meets a link that crashes. */
  lemma {:induction false} ActsEscapeIff(s: State, acts: seq<Act>)
    requires forall i :: 0 <= i < |acts| ==> !acts[i].Deliver?
    ensures Run(s, Dos(acts)).1 <==> !exists i :: 0 <= i < |acts| && CrashingAct(s.armed, acts[i])
    ensures Run(s, Dos(acts)).1 ==> SameDanger(s.armed, Run(s, Dos(acts)).0.armed)
    decreases |acts|
  {
    if acts != [] {
      var s' := Step(s, Do(acts[0])).0;
      assert Dos(acts) == [Do(acts[0])] + Dos(acts[1..]);
      RunJoin(s, [Do(acts[0])], Dos(acts[1..]));
      RunOne(s, Do(acts[0]));
      if !CrashingAct(s.armed, acts[0]) {
        assert SameDanger(s.armed, s'.armed);
        ActsEscapeIff(s', acts[1..]);
        assert forall i :: 0 < i < |acts| ==> acts[i] == acts[1..][i - 1];
        assert forall i :: 0 <= i < |acts| ==> (CrashingAct(s.armed, acts[i]) <==> CrashingAct(s'.armed, acts[i]));
      }
    }
  }

  lemma {:induction false} EntryEscapesIff(s: State, t: Ticket)
    requires NeverDelivers(t.entry)
    ensures Run(s, [Fire(t)]).1 <==> !Crashes(s.armed, t.entry)
    ensures Run(s, [Fire(t)]).1 ==> SameDanger(s.armed, Run(s, [Fire(t)]).0.armed)
  {
    match t.entry {
      case Callback(acts, ending) =>
        RunCallback(s, t.number, acts, ending);
        ActsEscapeIff(s.(fired := s.fired + [t.number]), acts);
      case Handle(link) => RunHandle(s, t.number, link);
    }
  }

  lemma DangerDecides(armed: map<nat, Ending>, armed': map<nat, Ending>, e: Entry)
    requires SameDanger(armed, armed')
    ensures Crashes(armed, e) <==> Crashes(armed', e)
  {
    if e.Callback? {
      assert forall i :: 0 <= i < |e.acts| ==> (CrashingAct(armed, e.acts[i]) <==> CrashingAct(armed', e.acts[i]));
    }
  }

  lemma {:induction false} QueueEscapesIff(s: State, queue: seq<Ticket>)
    requires forall i :: 0 <= i < |queue| ==> NeverDelivers(queue[i].entry)
    ensures Run(s, Fires(queue)).1 <==> forall i :: 0 <= i < |queue| ==> !Crashes(s.armed, queue[i].entry)
    decreases |queue|
  {
    if queue != [] {
      assert Fires(queue) == [Fire(queue[0])] + Fires(queue[1..]);
      RunJoin(s, [Fire(queue[0])], Fires(queue[1..]));
      EntryEscapesIff(s, queue[0]);
      if !Crashes(s.armed, queue[0].entry) {
        var s' := Run(s, [Fire(queue[0])]).0;
        QueueEscapesIff(s', queue[1..]);
        forall i | 0 <= i < |queue| ensures Crashes(s.armed, queue[i].entry) <==> Crashes(s'.armed, queue[i].entry) {
          DangerDecides(s.armed, s'.armed, queue[i].entry);
        }
        assert forall i :: 0 < i < |queue| ==> queue[i] == queue[1..][i - 1];
      }
    }
  }

  /** Entry `i` fires exactly when no entry before it crashes, or delivers a link that will. */
  lemma {:induction false} FiresIffNoneBeforeCrashes(s: State, i: nat)
    requires Numbered(s) && i < |s.queue| && forall j :: 0 <= j < |s.queue| ==> NeverDelivers(s.queue[j].entry)
    ensures s.queue[i].number in Run(s, [Do(Deliver)]).0.fired
       <==> forall j :: 0 <= j < i ==> !Crashes(s.armed, s.queue[j].entry)
  {
    FiresIffNothingEscapedBefore(s, i);
    QueueEscapesIff(s.(queue := []), s.queue[..i]);
    assert forall j :: 0 <= j < i ==> s.queue[..i][j] == s.queue[j];
  }

  /** A delivery fires its whole queue exactly when no entry but the last one crashes. */
  lemma {:induction false} AllFireIffOnlyTheLastCrashes(s: State)
    requires Numbered(s) && forall j :: 0 <= j < |s.queue| ==> NeverDelivers(s.queue[j].entry)
    ensures (forall i :: 0 <= i < |s.queue| ==> s.queue[i].number in Run(s, [Do(Deliver)]).0.fired)
       <==> forall j :: 0 <= j < |s.queue| - 1 ==> !Crashes(s.armed, s.queue[j].entry)
  {
    forall i | 0 <= i < |s.queue| {
      FiresIffNoneBeforeCrashes(s, i);
    }
    if s.queue != [] {
      FiresIffNoneBeforeCrashes(s, |s.queue| - 1);
    }
  }

  /** An entry that crashes lets an exception escape and takes every entry behind it along: none of them ever fires. */
  lemma {:induction false} CrashDropsTheRest(s: State, j: nat, i: nat, later: seq<Act>)
    requires Numbered(s) && forall k :: 0 <= k < |s.queue| ==> NeverDelivers(s.queue[k].entry)
    requires j < i < |s.queue| && Crashes(s.armed, s.queue[j].entry)
    ensures !Run(s, [Do(Deliver)]).1
    ensures s.queue[i].number !in Run(Run(s, [Do(Deliver)]).0, Dos(later)).0.fired
  {
    RunOne(s, Do(Deliver));
    QueueEscapesIff(s.(queue := []), s.queue);
    FiresIffNoneBeforeCrashes(s, i);
    DroppedForGood(s, later, s.queue[i].number);
  }

  // ---------------------------------------------------------------------------------------------
  // Deliver after commit
  // ---------------------------------------------------------------------------------------------

  /** What a handler does around one outbox: mint a nonce and arm its link, commit, roll back, deliver. */
  datatype RouteStep = Minting(link: nat, ending: Ending) | Committing | RollingBack | Delivering(acts: seq<Act>)

  /** `open` nonces are in the unit of work, `durable` ones are on disk. */
  datatype Route = Route(outbox: State, open: set<nat>, durable: set<nat>)

  predicate Known(r: Route, link: nat) {
    link in r.outbox.armed || link in r.outbox.sent || link in r.open || link in r.durable
  }

  function Take(r: Route, step: RouteStep): Route {
    match step
    case Minting(link, ending) =>
      if Known(r, link) then r else r.(outbox := r.outbox.(armed := r.outbox.armed[link := ending]), open := r.open + {link})
    case Committing => r.(open := {}, durable := r.durable + r.open)
    case RollingBack => r.(open := {})
    case Delivering(acts) => r.(outbox := Run(r.outbox, Dos(acts)).0)
  }

  function Route0(): Route {
    Route(Fresh(map[]), {}, {})
  }

  function Travel(steps: seq<RouteStep>): Route {
    if steps == [] then Route0() else Take(Travel(steps[..|steps| - 1]), steps[|steps| - 1])
  }

  /** No token has been sent without its nonce on disk. */
  ghost predicate Backed(r: Route) {
    forall l :: l in r.outbox.sent ==> l in r.durable
  }

  /** Every delivery happens when each armed link's nonce has been committed. */
  ghost predicate CommitsFirst(steps: seq<RouteStep>) {
    forall i :: 0 <= i < |steps| && steps[i].Delivering? ==> Travel(steps[..i]).outbox.armed.Keys <= Travel(steps[..i]).durable
  }

  lemma {:induction false} TokensAreBacked(steps: seq<RouteStep>)
    requires CommitsFirst(steps)
    ensures Backed(Travel(steps))
  {
    if steps != [] {
      var n := |steps| - 1;
      var before := Travel(steps[..n]);
      forall i | 0 <= i < n && steps[..n][i].Delivering?
        ensures Travel(steps[..n][..i]).outbox.armed.Keys <= Travel(steps[..n][..i]).durable
      {
        assert steps[..n][..i] == steps[..i];
      }
      TokensAreBacked(steps[..n]);
      if steps[n].Delivering? { RunComesFrom(before.outbox, Dos(steps[n].acts)); NoNumbers(Dos(steps[n].acts)); }
    }
  }

  /** Committing first is exactly what makes delivery safe. */
  lemma DeliveryIsSafeIffCommitted(r: Route)
    requires Backed(r)
    ensures (forall acts: seq<Act> :: Backed(Take(r, Delivering(acts)))) <==> r.outbox.armed.Keys <= r.durable
  {
    if r.outbox.armed.Keys <= r.durable {
      forall acts: seq<Act> ensures Backed(Take(r, Delivering(acts))) {
        RunComesFrom(r.outbox, Dos(acts));
      }
    } else {
      var link :| link in r.outbox.armed && link !in r.durable;
      RunOne(r.outbox, Do(DeliverLink(link)));
      assert Dos([DeliverLink(link)]) == [Do(DeliverLink(link))];
      var after := Take(r, Delivering([DeliverLink(link)]));
      assert after.outbox.sent == r.outbox.sent + [link];
      assert !Backed(after);
    }
  }
}
