/** The blocking operation queue under any number of producer threads and its one consumer,
    at the grain of the lock: every step of add and get, in any interleaving. */
module OperationQueue {
  import opened Machine
  import opened Ring

  type Thread = nat

  const CONSUMER: Thread := 0

  datatype Job<T> = Add(op: T) | Get

  datatype Pc<T> =
    | Outside
    | Wants(job: Job<T>)     // about to take the lock
    | Tests(job: Job<T>)     // holds it, at the loop test
    | Sleeps(job: Job<T>)    // released it, blocked until the test can pass
    | Works(job: Job<T>)     // holds it, past the loop
    | Leaves                 // holds it, about to release it

  datatype State<T> = State(
    ring: Ring<T>,
    lock: Option<Thread>,
    pc: map<Thread, Pc<T>>,
    calls: seq<(Thread, T)>,     // add calls begun
    accepted: seq<(Thread, T)>,  // adds in the order their items went in
    handed: seq<T>               // results of get, in order
  )

  datatype Event<T> = Call(job: Job<T>) | Take | Test | Wake | Work | Release

  function At<T>(s: State<T>, t: Thread): Pc<T> { if t in s.pc then s.pc[t] else Outside }

  predicate MustWait<T>(r: Ring<T>, j: Job<T>) {
    if j.Add? then r.count >= |r.cells| else r.count == 0
  }

  predicate Can<T>(s: State<T>, t: Thread, e: Event<T>) {
    match e
    case Call(j) => At(s, t).Outside? && (j.Get? ==> t == CONSUMER)
    case Take => At(s, t).Wants? && s.lock.None?
    case Test => At(s, t).Tests?
    case Wake => At(s, t).Sleeps? && !MustWait(s.ring, At(s, t).job)
    case Work => At(s, t).Works? && Ok(s.ring)
    case Release => At(s, t).Leaves?
  }

  function Do<T>(s: State<T>, t: Thread, e: Event<T>): State<T>
    requires Can(s, t, e)
  {
    match e
    case Call(j) =>
      s.(pc := s.pc[t := Wants(j)], calls := if j.Add? then s.calls + [(t, j.op)] else s.calls)
    case Take => s.(pc := s.pc[t := Tests(At(s, t).job)], lock := Some(t))
    case Test =>
      if MustWait(s.ring, At(s, t).job)
      then s.(pc := s.pc[t := Sleeps(At(s, t).job)], lock := None)
      else s.(pc := s.pc[t := Works(At(s, t).job)])
    case Wake => s.(pc := s.pc[t := Wants(At(s, t).job)])
    case Work => Act(s.(pc := s.pc[t := Leaves]), t, At(s, t).job)
    case Release => s.(pc := s.pc[t := Outside], lock := None)
  }

  /** The critical section after the wait loop, with the test it makes again. */
  function Act<T>(s: State<T>, t: Thread, j: Job<T>): State<T>
    requires Ok(s.ring)
  {
    if j.Add? then
      if s.ring.count < |s.ring.cells|
      then s.(ring := Insert(s.ring, j.op), accepted := s.accepted + [(t, j.op)])
      else s
    else
      if s.ring.count > 0
      then s.(ring := Remove(s.ring), handed := s.handed + [Oldest(s.ring)])
      else s
  }

  ghost predicate Next<T(!new)>(s: State<T>, t: Thread, e: Event<T>, s': State<T>) {
    Can(s, t, e) && s' == Do(s, t, e)
  }

  /** The critical sections of add and get, in place on the array. */
  class Queue<T(0)> {
    const queue: array<T>
    var count: nat
    var top: nat

    ghost function R(): Ring<T>
      reads this, queue
    {
      Ring(queue[..], count, top)
    }

    constructor (size: nat)
      ensures Ok(R()) && Contents(R()) == [] && queue.Length == size && fresh(queue)
    {
      queue := new T[size];
      count, top := 0, 0;
    }

    method AddLocked(op: T)
      requires Ok(R())
      modifies `count, `top, queue
      ensures Ok(R())
      ensures R() == if old(count) < queue.Length then Insert(old(R()), op) else old(R())
      ensures Contents(R()) == old(Contents(R())) + if old(count) < queue.Length then [op] else []
    {
      ghost var was := R();
      if count < queue.Length {
        InsertAppends(was, op);
        count := count + 1;
        queue[top] := op;
        top := top + 1;
        if top == queue.Length {
          top := 0;
        }
        assert R() == Insert(was, op);
      }
    }

    method GetLocked() returns (op: Option<T>)
      requires Ok(R())
      modifies `count
      ensures Ok(R()) && (op.None? <==> old(Contents(R())) == [])
      ensures R() == if old(count) > 0 then Remove(old(R())) else old(R())
      ensures op.Some? ==> old(Contents(R())) == [op.value] + Contents(R())
    {
      if count == 0 {
        return None;
      }
      RemoveTakesFirst(R());
      var start := top - count;
      if start < 0 {
        start := start + queue.Length;
      }
      count := count - 1;
      return Some(queue[start]);
    }
  }

  // ---------- Safety ----------

  predicate Holds<T>(p: Pc<T>) { p.Tests? || p.Works? || p.Leaves? }

  predicate InCall<T>(p: Pc<T>) { p.Wants? || p.Tests? || p.Sleeps? || p.Works? }

  function Ops<T>(log: seq<(Thread, T)>): seq<T> {
    seq(|log|, i requires 0 <= i < |log| => log[i].1)
  }

  /** The operations of one thread, in order. */
  function By<T>(log: seq<(Thread, T)>, t: Thread): seq<T> {
    if log == [] then []
    else By(log[..|log| - 1], t) + if log[|log| - 1].0 == t then [log[|log| - 1].1] else []
  }

  function Pending<T>(p: Pc<T>): seq<T> {
    if InCall(p) && p.job.Add? then [p.job.op] else []
  }

  ghost predicate ThreadOk<T(!new)>(s: State<T>, t: Thread) {
    && (Holds(At(s, t)) ==> s.lock == Some(t))
    && (InCall(At(s, t)) && At(s, t).job.Get? ==> t == CONSUMER)
    && (At(s, t).Works? ==> !MustWait(s.ring, At(s, t).job))
    && By(s.calls, t) == By(s.accepted, t) + Pending(At(s, t))
  }

  /** Only the lock's owner is inside; what was handed out, followed by what is queued, is
      what was accepted; each add call has put its operation in once or is still at it. */
  ghost predicate Inv<T(!new)>(s: State<T>) {
    && Ok(s.ring)
    && (s.lock.Some? ==> Holds(At(s, s.lock.value)))
    && (forall t: Thread :: ThreadOk(s, t))
    && Ops(s.accepted) == s.handed + Contents(s.ring)
  }

  lemma {:induction false} ByAppend<T>(log: seq<(Thread, T)>, x: (Thread, T), t: Thread)
    ensures By(log + [x], t) == By(log, t) + if x.0 == t then [x.1] else []
  {}

  lemma NextKeepsInv<T(!new)>(s: State<T>, t: Thread, e: Event<T>, s': State<T>)
    requires Inv(s) && Next(s, t, e, s')
    ensures Inv(s')
  {
    hide By, Contents, Ops, Oldest, Pending;
    RingStep(s, t, e, s');
    assert ThreadOk(s, t);
    forall u: Thread ensures ThreadOk(s', u) {
      assert ThreadOk(s, u);
      LogStep(s, t, e, s', u);
    }
  }

  lemma RingStep<T(!new)>(s: State<T>, t: Thread, e: Event<T>, s': State<T>)
    requires Ok(s.ring) && Ops(s.accepted) == s.handed + Contents(s.ring) && Next(s, t, e, s')
    ensures Ok(s'.ring) && Ops(s'.accepted) == s'.handed + Contents(s'.ring)
  {
    if e.Work? {
      match At(s, t).job
      case Add(op) =>
        if s.ring.count < |s.ring.cells| {
          InsertAppends(s.ring, op);
          assert Ops(s.accepted + [(t, op)]) == Ops(s.accepted) + [op];
        }
      case Get =>
        if s.ring.count > 0 {
          RemoveTakesFirst(s.ring);
        }
    }
  }

  lemma {:induction false} LogStep<T(!new)>(s: State<T>, t: Thread, e: Event<T>, s': State<T>, u: Thread)
    requires Next(s, t, e, s') && ThreadOk(s, t) && ThreadOk(s, u)
    ensures By(s'.calls, u) == By(s'.accepted, u) + Pending(At(s', u))
  {
    hide Insert, Remove, Oldest, Ok, By;
    if e.Call? && e.job.Add? {
      ByAppend(s.calls, (t, e.job.op), u);
    } else if e.Work? && At(s, t).job.Add? {
      assert s'.accepted == s.accepted + [(t, At(s, t).job.op)];
      ByAppend(s.accepted, (t, At(s, t).job.op), u);
    } else {
      assert s'.calls == s.calls && s'.accepted == s.accepted;
      assert Pending(At(s', u)) == Pending(At(s, u));
    }
  }

  /** Every run: a state and an event at a time. */
  ghost predicate Runs<T(!new)>(run: seq<State<T>>, log: seq<(Thread, Event<T>)>) {
    && |run| == |log| + 1
    && forall i :: 0 <= i < |log| ==> Next(run[i], log[i].0, log[i].1, run[i + 1])
  }

  ghost predicate Initial<T(!new)>(s: State<T>) {
    s.ring.count == 0 && s.ring.top == 0 && s.lock.None? && s.pc == map[] && s.calls == s.accepted == [] && s.handed == []
  }

  lemma {:induction false} RunKeepsInv<T(!new)>(run: seq<State<T>>, log: seq<(Thread, Event<T>)>, i: nat)
    requires Runs(run, log) && Initial(run[0]) && i < |run|
    ensures Inv(run[i])
  {
    if i == 0 {
      assert forall t: Thread :: ThreadOk(run[0], t);
    } else {
      RunKeepsInv(run, log, i - 1);
      NextKeepsInv(run[i - 1], log[i - 1].0, log[i - 1].1, run[i]);
    }
  }

  /** In every state of every run, the operations handed to the consumer are a prefix of
      those accepted, at most a queueful is outstanding, no two threads are in a critical
      section, and every thread's accepted adds are its calls in order, but for the one it
      may be making. */
  lemma {:induction false} QueueIsFifo<T(!new)>(run: seq<State<T>>, log: seq<(Thread, Event<T>)>, i: nat, t: Thread, u: Thread)
    requires Runs(run, log) && Initial(run[0]) && i < |run|
    ensures var s := run[i];
            && s.handed <= Ops(s.accepted) && |s.accepted| - |s.handed| <= |s.ring.cells|
            && (Holds(At(s, t)) && Holds(At(s, u)) ==> t == u)
            && By(s.accepted, t) <= By(s.calls, t) && |By(s.calls, t)| - |By(s.accepted, t)| <= 1
            && (At(s, t).Outside? ==> By(s.accepted, t) == By(s.calls, t))
  {
    RunKeepsInv(run, log, i);
    assert ThreadOk(run[i], t) && ThreadOk(run[i], u);
  }

  // ---------- Progress ----------

  /** While a producer is in add and the consumer in get, the queue never locks up. */
  lemma NeverStuck<T(!new)>(s: State<T>, u: Thread) returns (t: Thread, e: Event<T>)
    requires Inv(s) && |s.ring.cells| > 0
    requires u != CONSUMER && InCall(At(s, u)) && InCall(At(s, CONSUMER)) && At(s, CONSUMER).job.Get?
    ensures !e.Call? && Can(s, t, e)
  {
    t := if s.lock.Some? then s.lock.value
         else if At(s, CONSUMER).Sleeps? && s.ring.count == 0 then u
         else CONSUMER;
    assert ThreadOk(s, t) && ThreadOk(s, u) && ThreadOk(s, CONSUMER);
    var p := At(s, t);
    e := match p
         case Wants(_) => Take
         case Tests(_) => Test
         case Works(_) => Work
         case Leaves => Release
         case _ => Wake;
  }

  // ---------- What a call comes to ----------

  ghost predicate Reachable<T(!new)>(s: State<T>) {
    exists run: seq<State<T>>, log: seq<(Thread, Event<T>)> ::
      Runs(run, log) && Initial(run[0]) && run[|run| - 1] == s
  }

  lemma ReachableInv<T(!new)>(s: State<T>)
    requires Reachable(s)
    ensures Inv(s)
  {
    var run: seq<State<T>>, log: seq<(Thread, Event<T>)> :|
      Runs(run, log) && Initial(run[0]) && run[|run| - 1] == s;
    RunKeepsInv(run, log, |run| - 1);
  }

  /** These events, by thread t alone, lead from s to s'. */
  ghost predicate Leads<T(!new)>(s: State<T>, t: Thread, es: seq<Event<T>>, s': State<T>)
    decreases |es|
  {
    if es == [] then s' == s else Can(s, t, es[0]) && Leads(Do(s, t, es[0]), t, es[1..], s')
  }

  /** What is left of a call that does not have to wait. */
  function Ahead<T>(p: Pc<T>): seq<Event<T>> {
    match p
    case Sleeps(_) => [Wake, Take, Test, Work, Release]
    case Wants(_) => [Take, Test, Work, Release]
    case Tests(_) => [Test, Work, Release]
    case Works(_) => [Work, Release]
    case Leaves => [Release]
    case Outside => []
  }

  /** Nobody else has the lock. */
  predicate Free<T>(s: State<T>, t: Thread) { s.lock == if Holds(At(s, t)) then Some(t) else None }

  /** An add that finds room, wherever it stands, goes on to put its operation at the end of
      the queue, and leaves. Nothing else changes. */
  lemma {:induction false} AddEnds<T(!new)>(s: State<T>, t: Thread)
    requires Reachable(s) && Free(s, t) && InCall(At(s, t)) && At(s, t).job.Add? && s.ring.count < |s.ring.cells|
    ensures Ok(s.ring)
    ensures exists s' ::
              && Leads(s, t, Ahead(At(s, t)), s')
              && s' == State(s'.ring, None, s.pc[t := Outside], s.calls, s.accepted + [(t, At(s, t).job.op)], s.handed)
              && Ok(s'.ring) && |s'.ring.cells| == |s.ring.cells|
              && Contents(s'.ring) == Contents(s.ring) + [At(s, t).job.op]
  {
    hide Reachable, Contents;
    ReachableInv(s);
    InsertAppends(s.ring, At(s, t).job.op);
    var s' := State(Insert(s.ring, At(s, t).job.op), None, s.pc[t := Outside], s.calls,
                    s.accepted + [(t, At(s, t).job.op)], s.handed);
    ContentsCount(s.ring);
    CallLeads(s, t, s');
  }

  /** A get that finds something hands out the oldest, and leaves. */
  lemma {:induction false} GetEnds<T(!new)>(s: State<T>, t: Thread)
    requires Reachable(s) && Free(s, t) && InCall(At(s, t)) && At(s, t).job.Get? && s.ring.count > 0
    ensures Ok(s.ring) && Contents(s.ring) != []
    ensures exists s' ::
              && Leads(s, t, Ahead(At(s, t)), s')
              && s' == State(s'.ring, None, s.pc[t := Outside], s.calls, s.accepted, s.handed + [Contents(s.ring)[0]])
              && Ok(s'.ring) && |s'.ring.cells| == |s.ring.cells|
              && Contents(s'.ring) == Contents(s.ring)[1..]
  {
    hide Reachable, Contents;
    ReachableInv(s);
    ContentsCount(s.ring);
    RemoveTakesFirst(s.ring);
    var s' := State(Remove(s.ring), None, s.pc[t := Outside], s.calls, s.accepted, s.handed + [Oldest(s.ring)]);
    CallLeads(s, t, s');
    assert Contents(s.ring) == [Oldest(s.ring)] + Contents(Remove(s.ring));
  }

  lemma ContentsCount<T>(r: Ring<T>)
    requires Ok(r)
    ensures |Contents(r)| == r.count
  {}

  /** A call that does not have to wait comes to its action. */
  lemma {:induction false} CallLeads<T(!new)>(s: State<T>, t: Thread, s': State<T>)
    requires Ok(s.ring) && Free(s, t) && InCall(At(s, t)) && !MustWait(s.ring, At(s, t).job)
    requires s' == Act(s, t, At(s, t).job).(lock := None, pc := s.pc[t := Outside])
    ensures Leads(s, t, Ahead(At(s, t)), s')
    decreases match At(s, t) case Sleeps(_) => 4 case Wants(_) => 3 case Tests(_) => 2 case _ => 1
  {
    hide Insert, Remove, Oldest;
    var p := At(s, t);
    var es := Ahead(p);
    if p.Works? {
      var s1 := Do(s, t, Work);
      assert es[1..] == [Release] && [Event<T>.Release][1..] == [];
      assert s1.pc[t := Pc<T>.Outside] == s.pc[t := Pc<T>.Outside];
      assert Leads(s', t, [], s');
      assert Leads(s1, t, [Event<T>.Release], s');
    } else {
      var s1 := Do(s, t, es[0]);
      assert es[1..] == Ahead(At(s1, t));
      assert s1.pc[t := Pc<T>.Outside] == s.pc[t := Pc<T>.Outside];
      CallLeads(s1, t, s');
    }
  }

  /** One that has to wait lets the lock go and sleeps, having changed nothing. */
  lemma {:induction false} WaiterSleeps<T(!new)>(s: State<T>, t: Thread)
    requires At(s, t).Wants? && s.lock.None? && MustWait(s.ring, At(s, t).job)
    ensures Leads(s, t, [Take, Test], s.(pc := s.pc[t := Sleeps(At(s, t).job)]))
    ensures !Can(s.(pc := s.pc[t := Sleeps(At(s, t).job)]), t, Wake)
  {
    var s1 := Do(s, t, Take);
    var s2 := Do(s1, t, Test);
    assert [Event<T>.Take, Event<T>.Test][1..] == [Test] && [Event<T>.Test][1..] == [];
    assert s2.pc == s.pc[t := Sleeps(At(s, t).job)];
    assert Leads(s1, t, [Event<T>.Test], s2);
  }

  /** When a call has to wait. */
  lemma WaitsIff<T>(r: Ring<T>, op: T)
    requires Ok(r)
    ensures MustWait(r, Add(op)) <==> |Contents(r)| == |r.cells|
    ensures MustWait(r, Job<T>.Get) <==> Contents(r) == []
  {}

  /** Whoever has the lock lets it go in at most three steps. */
  lemma {:induction false} HolderLeaves<T(!new)>(s: State<T>, t: Thread) returns (es: seq<Event<T>>, s': State<T>)
    requires Reachable(s) && s.lock == Some(t)
    ensures 1 <= |es| <= 3 && Leads(s, t, es, s') && s'.lock.None?
  {
    hide Reachable;
    ReachableInv(s);
    var p := At(s, t);
    if p.Tests? && MustWait(s.ring, p.job) {
      es, s' := [Test], Do(s, t, Test);
      assert es[1..] == [] && Leads(s', t, [], s');
    } else if p.Leaves? {
      es, s' := [Release], Do(s, t, Release);
      assert es[1..] == [] && Leads(s', t, [], s');
    } else {
      assert ThreadOk(s, t);
      es, s' := Ahead(p), Act(s, t, p.job).(lock := None, pc := s.pc[t := Outside]);
      CallLeads(s, t, s');
    }
  }
}
