/** What each call of the kernel lock comes to, in every reachable state, when its thread is
    the only one to run: where it ends, who owns the lock then, and what the counts are. A
    waiting take ends as soon as the lock is free, and not before. */
module LockCalls {
  import opened Locks

  ghost predicate Reachable(s: Lock) {
    exists s0: Lock, es: seq<Event> :: Fresh(s0) && Runs(s0, es, s)
  }

  lemma ReachableInv(s: Lock)
    requires Reachable(s)
    ensures Inv(s)
  {
    hide Inv, Fresh, Runs;
    var s0: Lock, es: seq<Event> :| Fresh(s0) && Runs(s0, es, s);
    FreshInv(s0);
    RunsKeepInv(s0, es, s);
  }

  // ---------- One thread alone ----------

  function Only(t: nat, n: nat): seq<Event> { seq(n, _ => Ran(t)) }

  /** The call, and then n steps of its thread and of no other. */
  function Alone(t: nat, op: Op, n: nat): seq<Event> { [Called(t, op)] + Only(t, n) }

  /** More than any call needs. */
  const STEPS := 12

  /** In a few steps of thread t the lock goes from s to s'. */
  ghost predicate Leads(s: Lock, t: nat, s': Lock) {
    exists n: nat :: n <= STEPS && Runs(s, Only(t, n), s')
  }

  /** The call ends, in a few steps of its thread alone, with s'. */
  ghost predicate Ends(s: Lock, t: nat, op: Op, s': Lock) {
    exists n: nat :: n <= STEPS && Runs(s, Alone(t, op, n), s')
  }

  /** The lock with these of its parts, and this running frame and count of thread t. */
  function Put(s: Lock, t: nat, e: Effect): Lock
    requires t in s.threads
  {
    Lock(s.user, e.owner, e.recursion, e.waiting,
         s.threads[t := Thread(e.frame, s.threads[t].below, e.count)])
  }

  /** Thread t as it is. */
  function Now(s: Lock, t: nat): Effect
    requires t in s.threads
  {
    Effect(s.owner, s.recursion, s.waiting, s.threads[t].top, s.threads[t].count)
  }

  /** With its call just made. */
  function Entered(s: Lock, t: nat, op: Op): Effect
    requires t in s.threads
  {
    Now(s, t).(frame := s.threads[t].top.(pc := Entry(s.user, op)))
  }

  ghost predicate OneStep(s: Lock, t: nat, e: Effect, e': Effect)
    requires t in s.threads
  {
    !e.frame.pc.XferCas? && !e.frame.pc.XferInc? && e' == Own(Put(s, t, e), t, e.frame, e.count)
  }

  lemma PutRuns(s: Lock, t: nat, e: Effect, e': Effect)
    requires t in s.threads && OneStep(s, t, e, e')
    ensures Run(Put(s, t, e), t) == Put(s, t, e')
  {
    hide Own;
    assert s.threads[t := Thread(e.frame, s.threads[t].below, e.count)][t := Thread(e'.frame, s.threads[t].below, e'.count)]
        == s.threads[t := Thread(e'.frame, s.threads[t].below, e'.count)];
  }

  ghost predicate Trace(s: Lock, t: nat, es: seq<Effect>)
    requires t in s.threads
  {
    forall i :: 0 <= i < |es| - 1 ==> OneStep(s, t, es[i], es[i + 1])
  }

  lemma {:induction false} TraceRuns(s: Lock, t: nat, es: seq<Effect>)
    requires t in s.threads && es != [] && Trace(s, t, es)
    ensures Runs(Put(s, t, es[0]), Only(t, |es| - 1), Put(s, t, es[|es| - 1]))
    decreases |es|
  {
    hide Put, OneStep;
    if |es| > 1 {
      var rest := es[1..];
      forall i | 0 <= i < |rest| - 1 ensures OneStep(s, t, rest[i], rest[i + 1]) {
        assert OneStep(s, t, es[i + 1], es[i + 2]);
      }
      TraceRuns(s, t, rest);
      assert OneStep(s, t, es[0], es[1]);
      PutRuns(s, t, es[0], es[1]);
      assert t in Put(s, t, es[0]).threads by { PutKeys(s, t, es[0]); }
      assert Only(t, |es| - 1)[1..] == Only(t, |rest| - 1);
    }
  }

  lemma PutKeys(s: Lock, t: nat, e: Effect)
    requires t in s.threads
    ensures t in Put(s, t, e).threads && Put(s, t, Now(s, t)) == s
  {
    assert s.threads[t := s.threads[t]] == s.threads;
  }

  lemma {:induction false} Follow(s: Lock, t: nat, e: Effect, es: seq<Effect>)
    requires t in s.threads && es != [] && OneStep(s, t, e, es[0]) && Trace(s, t, es)
    ensures Trace(s, t, [e] + es)
  {
    hide OneStep;
    var all := [e] + es;
    forall i | 0 <= i < |all| - 1 ensures OneStep(s, t, all[i], all[i + 1]) {
      if i > 0 { assert OneStep(s, t, es[i - 1], es[i]); }
    }
  }

  // ---------- Taking the lock ----------

  /** The lock taken once by thread t, at a frame that had none of it. */
  function Taken(s: Lock, t: nat): Effect
    requires t in s.threads
  {
    Effect(t, 1, false, Frame(Idle, 1, true), s.threads[t].count + if s.user then 0 else 1)
  }

  /** After the compare and swap. */
  lemma Enters(s: Lock, t: nat, w: bool) returns (es: seq<Effect>)
    requires t in s.threads
    ensures 1 <= |es| <= 6 && Trace(s, t, es)
    ensures es[0] == Effect(t, 0, w, Frame(TakePost, 0, true), s.threads[t].count) && es[|es| - 1] == Taken(s, t)
  {
    var c := s.threads[t].count;
    var e1 := Effect(t, 0, w, Frame(TakePost, 0, true), c);
    var e2 := Effect(t, 0, false, Frame(TakeTest, 0, true), c);
    var e3 := Effect(t, 0, false, Frame(TakeInc, 0, true), c);
    var e4 := Effect(t, 1, false, Frame(TakeCount, 0, true), c);
    if s.user {
      var e5 := Effect(t, 1, false, Frame(UserDec, 1, true), c + 1);
      es := [e1, e2, e3, e4, e5, Taken(s, t)];
    } else {
      es := [e1, e2, e3, e4, Taken(s, t)];
    }
  }

  /** On the way to the compare and swap. */
  predicate Approaching(p: Pc) {
    p.TakeCheck? || p.TakeLoop? || p.TakeCas? || p.TakeBlocked? || p.RecCheck? || p.TryRecCheck? || p.TryCheck? || p.TryCas?
  }

  function Distance(p: Pc): nat {
    match p
    case TakeCas | TryCas => 0
    case TakeLoop | TakeBlocked | TryCheck => 1
    case TakeCheck | TryRecCheck => 2
    case RecCheck => 3
    case _ => 0
  }

  /** From anywhere on that way, with the lock free. */
  lemma {:induction false} Approaches(s: Lock, t: nat, p: Pc, w: bool) returns (es: seq<Effect>)
    requires t in s.threads && t != 0 && Approaching(p)
    ensures 1 <= |es| <= 8 + Distance(p) && Trace(s, t, es)
    ensures es[0] == Effect(0, 0, w, Frame(p, 0, false), s.threads[t].count) && es[|es| - 1] == Taken(s, t)
    decreases Distance(p)
  {
    hide Trace;
    var e := Effect(0, 0, w, Frame(p, 0, false), s.threads[t].count);
    if p.TakeCas? || p.TryCas? {
      es := Enters(s, t, w);
      if p.TakeCas? {
        var won := Effect(t, 0, w, Frame(TakeLoop, 0, true), s.threads[t].count);
        Follow(s, t, won, es);
        es := [won] + es;
      }
    } else {
      var next := if p.TakeLoop? || p.TakeBlocked? then TakeCas else if p.TakeCheck? then TakeLoop
                  else if p.RecCheck? then TakeCheck else if p.TryRecCheck? then TryCheck else TryCas;
      es := Approaches(s, t, next, w);
    }
    Follow(s, t, e, es);
    es := [e] + es;
  }

  lemma TraceEnds(s: Lock, t: nat, op: Op, es: seq<Effect>)
    requires t in s.threads && Allowed(s, t, op) && 1 <= |es| <= STEPS + 1 && es[0] == Entered(s, t, op) && Trace(s, t, es)
    ensures Ends(s, t, op, Put(s, t, es[|es| - 1]))
  {
    hide Trace, Runs;
    var n, s' := |es| - 1, Put(s, t, es[|es| - 1]);
    TraceRuns(s, t, es);
    CallPuts(s, t, op);
    CallRuns(s, t, op, n, s');
  }

  lemma CallPuts(s: Lock, t: nat, op: Op)
    requires Allowed(s, t, op)
    ensures Call(s, t, op) == Put(s, t, Entered(s, t, op))
  {}

  lemma {:induction false} CallRuns(s: Lock, t: nat, op: Op, n: nat, s': Lock)
    requires Allowed(s, t, op) && Runs(Call(s, t, op), Only(t, n), s')
    ensures Runs(s, Alone(t, op, n), s')
  {
    assert Alone(t, op, n)[1..] == Only(t, n);
  }

  predicate IsTake(op: Op) { op.Take? || op.TakeRecursive? || op.TryTake? || op.TryTakeRecursive? }

  /** A take of either kind, or a try, of a free lock returns with the lock: owned by the
      thread, with one take in the frame that called. Nothing else has changed. */
  lemma TakesFree(s: Lock, t: nat, op: Op)
    requires Reachable(s) && Allowed(s, t, op) && IsTake(op) && s.owner == 0
    ensures Ends(s, t, op,
                 Lock(s.user, t, 1, false,
                      s.threads[t := Thread(Frame(Idle, 1, true), s.threads[t].below,
                                            s.threads[t].count + if s.user then 0 else 1)]))
  {
    hide Reachable, Ends, Trace;
    ReachableInv(s);
    assert ThreadFits(s, t, s.threads[t]);
    var es := Approaches(s, t, Entry(s.user, op), s.waiting);
    TraceEnds(s, t, op, es);
  }

  /** So does a take that waits, wherever it stands, once the lock is free. */
  lemma WaiterTakes(s: Lock, t: nat)
    requires Reachable(s) && t in s.threads && s.owner == 0 && Approaching(s.threads[t].top.pc)
    ensures Leads(s, t, Lock(s.user, t, 1, false,
                             s.threads[t := Thread(Frame(Idle, 1, true), s.threads[t].below,
                                                   s.threads[t].count + if s.user then 0 else 1)]))
  {
    hide Reachable, Trace;
    ReachableInv(s);
    assert ThreadFits(s, t, s.threads[t]);
    var es := Approaches(s, t, s.threads[t].top.pc, s.waiting);
    PutKeys(s, t, Now(s, t));
    TraceRuns(s, t, es);
  }

  predicate IsRecursive(op: Op) { op.TakeRecursive? || op.TryTakeRecursive? }

  /** The owner takes it again with a recursive take: one more of each count. */
  lemma TakesAgain(s: Lock, t: nat, op: Op)
    requires Reachable(s) && Allowed(s, t, op) && IsRecursive(op) && s.owner == t
    ensures s.threads[t].top.holds
    ensures Ends(s, t, op,
                 Lock(s.user, t, s.recursion + 1, s.waiting,
                      s.threads[t := Thread(Frame(Idle, s.threads[t].top.takes + 1, true), s.threads[t].below,
                                            s.threads[t].count)]))
  {
    hide Reachable, Ends;
    ReachableInv(s);
    assert ThreadFits(s, t, s.threads[t]);
    var e := Entered(s, t, op);
    var e1 := e.(frame := e.frame.(pc := RecInc));
    var e2 := e.(recursion := s.recursion + 1, frame := Frame(Idle, e.frame.takes + 1, true));
    TraceEnds(s, t, op, [e, e1, e2]);
  }

  /** A try of a lock that another thread owns changes nothing; nor does a try that is not
      recursive of a lock that the thread itself owns. */
  lemma TryRefused(s: Lock, t: nat, op: Op)
    requires Reachable(s) && Allowed(s, t, op) && s.owner != 0
    requires op.TryTake? || (op.TryTakeRecursive? && s.owner != t)
    ensures Ends(s, t, op, s)
  {
    hide Reachable, Ends;
    var e := Entered(s, t, op);
    var e1 := e.(frame := e.frame.(pc := TryCheck));
    var e2 := e.(frame := e.frame.(pc := TryCas));
    var es := if s.owner == t then [e1, Now(s, t)] else [e1, e2, Now(s, t)];
    if op.TryTakeRecursive? {
      Follow(s, t, e, es);
      es := [e] + es;
    }
    PutKeys(s, t, Now(s, t));
    TraceEnds(s, t, op, es);
  }

  /** A take of a lock that another thread owns does not return while it does: whatever the
      number of steps, only the program counter has moved, inside the loop. */
  lemma {:induction false} TakeWaits(s: Lock, t: nat, op: Op, n: nat, s': Lock)
    requires Reachable(s) && Allowed(s, t, op) && (op.Take? || op.TakeRecursive?) && s.owner != 0 && s.owner != t
    requires Runs(s, Alone(t, op, n), s')
    ensures t in s'.threads && Approaching(s'.threads[t].top.pc)
    ensures s' == Put(s, t, Now(s, t).(frame := s.threads[t].top.(pc := s'.threads[t].top.pc)))
  {
    hide Reachable;
    ReachableInv(s);
    assert ThreadFits(s, t, s.threads[t]);
    assert Alone(t, op, n)[1..] == Only(t, n);
    WaitsOn(s, t, Entry(s.user, op), n, s');
  }

  predicate Taking(p: Pc) { p.TakeCheck? || p.TakeLoop? || p.TakeCas? || p.TakeBlocked? || p.RecCheck? }

  lemma {:induction false} WaitsOn(s: Lock, t: nat, p: Pc, n: nat, s': Lock)
    requires t in s.threads && Taking(p) && s.owner != 0 && s.owner != t
    requires Runs(Put(s, t, Now(s, t).(frame := s.threads[t].top.(pc := p))), Only(t, n), s')
    ensures t in s'.threads && Taking(s'.threads[t].top.pc)
    ensures s' == Put(s, t, Now(s, t).(frame := s.threads[t].top.(pc := s'.threads[t].top.pc)))
    decreases n
  {
    if n > 0 {
      var e := Now(s, t).(frame := s.threads[t].top.(pc := p));
      var next := match p { case RecCheck => TakeCheck case TakeCheck => TakeLoop case TakeCas => TakeBlocked case _ => TakeCas };
      var e' := Now(s, t).(frame := s.threads[t].top.(pc := next));
      assert OneStep(s, t, e, e');
      PutRuns(s, t, e, e');
      assert Only(t, n)[1..] == Only(t, n - 1);
      WaitsOn(s, t, next, n - 1, s');
    }
  }

  /** To take a lock that one owns, other than recursively, does not return. */
  lemma TakeTwiceHalts(s: Lock, t: nat)
    requires Reachable(s) && Allowed(s, t, Take) && s.owner == t
    ensures Ends(s, t, Take, Put(s, t, Now(s, t).(frame := s.threads[t].top.(pc := Halted))))
  {
    hide Reachable, Ends;
    var e := Entered(s, t, Take);
    TraceEnds(s, t, Take, [e, e.(frame := e.frame.(pc := Halted))]);
  }

  // ---------- Giving it up ----------

  /** One take fewer; with the last one, the lock is free. */
  function GivenUp(s: Lock, t: nat): Effect
    requires t in s.threads
  {
    if s.recursion == 1 then
      Effect(0, 0, s.waiting, Frame(Idle, 0, false), s.threads[t].count - if s.user then 0 else 1)
    else Effect(t, s.recursion - 1, s.waiting, Frame(Idle, s.threads[t].top.takes - 1, true), s.threads[t].count)
  }

  lemma SetsFree(s: Lock, t: nat, c: int) returns (es: seq<Effect>)
    requires t in s.threads
    ensures 1 <= |es| <= 4 && Trace(s, t, es) && es[0] == Effect(t, 0, s.waiting, Frame(RelTest, 0, true), c)
    ensures es[|es| - 1] == Effect(0, 0, s.waiting, Frame(Idle, 0, false), c - 1)
  {
    var e1 := Effect(t, 0, s.waiting, Frame(RelTest, 0, true), c);
    var e2 := Effect(t, 0, s.waiting, Frame(RelCas, 0, true), c);
    var e3 := Effect(0, 0, s.waiting, Frame(RelCount, 0, false), c);
    es := [e1, e2, e3, Effect(0, 0, s.waiting, Frame(Idle, 0, false), c - 1)];
  }

  /** From the test of Release on. */
  lemma GivesUp(s: Lock, t: nat) returns (es: seq<Effect>)
    requires t in s.threads && s.owner == t && t != 0 && s.threads[t].top.holds && s.threads[t].top.takes == s.recursion >= 1
    requires s.user ==> s.recursion == 1
    ensures 1 <= |es| <= 7 && Trace(s, t, es) && es[|es| - 1] == GivenUp(s, t)
    ensures es[0] == Effect(t, s.recursion, s.waiting, Frame(RelCheck, s.recursion, true),
                            s.threads[t].count + if s.user then 1 else 0)
  {
    var c, r, w := s.threads[t].count + (if s.user then 1 else 0), s.recursion, s.waiting;
    var e1 := Effect(t, r, w, Frame(RelCheck, r, true), c);
    var e2 := Effect(t, r, w, Frame(RelDec, r - 1, true), c);
    var e3 := Effect(t, r - 1, w, Frame(RelTest, r - 1, true), c);
    if r == 1 {
      es := SetsFree(s, t, c);
    } else {
      es := [e3, GivenUp(s, t)];
    }
    assert OneStep(s, t, e1, e2) && OneStep(s, t, e2, e3);
    hide Trace;
    Follow(s, t, e2, es);
    Follow(s, t, e1, [e2] + es);
    es := [e1] + ([e2] + es);
  }

  lemma OwnerHolds(s: Lock, t: nat)
    requires Reachable(s) && t in s.threads && s.owner == t
    requires s.threads[t].top.pc == Idle || s.threads[t].top.pc == Resumed
    requires s.threads[t].below == [] || s.threads[t].top.takes > 0 || s.threads[t].top.pc == Resumed
    ensures t != 0 && s.threads[t].top.holds && s.threads[t].top.takes == s.recursion >= 1
    ensures s.user ==> s.recursion == 1
  {
    hide Inv, Fresh, Runs, CountInv;
    var s0: Lock, es: seq<Event> :| Fresh(s0) && Runs(s0, es, s);
    FreshInv(s0);
    FreshCounts(s0);
    RunsKeepCounts(s0, CountsOf(s0), es, s);
    OwnerFits(s, CountsOf(s0), t);
  }

  lemma OwnerFits(s: Lock, base: map<nat, int>, t: nat)
    requires Inv(s) && CountInv(s, base) && t in s.threads && s.owner == t
    requires s.threads[t].top.pc == Idle || s.threads[t].top.pc == Resumed
    requires s.threads[t].below == [] || s.threads[t].top.takes > 0 || s.threads[t].top.pc == Resumed
    ensures t != 0 && s.threads[t].top.holds && s.threads[t].top.takes == s.recursion >= 1
    ensures s.user ==> s.recursion == 1
  {
    assert ThreadFits(s, t, s.threads[t]) && Counted(s.user, base[t], s.threads[t]);
  }

  /** The owner's release gives up one take, and with the last of them the lock. */
  lemma Releases(s: Lock, t: nat)
    requires Reachable(s) && Allowed(s, t, Release) && s.owner == t
    ensures s.threads[t].top.takes == s.recursion >= 1
    ensures s.recursion == 1 ==>
              Ends(s, t, Release,
                   Lock(s.user, 0, 0, s.waiting,
                        s.threads[t := Thread(Frame(Idle, 0, false), s.threads[t].below,
                                              s.threads[t].count - if s.user then 0 else 1)]))
    ensures s.recursion > 1 ==>
              Ends(s, t, Release,
                   Lock(s.user, t, s.recursion - 1, s.waiting,
                        s.threads[t := Thread(Frame(Idle, s.recursion - 1, true), s.threads[t].below, s.threads[t].count)]))
  {
    hide Reachable, Ends, Trace;
    OwnerHolds(s, t);
    var es := GivesUp(s, t);
    var e := Entered(s, t, Release);
    if s.user {
      Follow(s, t, e, es);
      es := [e] + es;
    }
    TraceEnds(s, t, Release, es);
  }

  /** Anybody else's does not return, and leaves the lock alone. */
  lemma ReleaseRefused(s: Lock, t: nat)
    requires Reachable(s) && Allowed(s, t, Release) && s.owner != t
    ensures Ends(s, t, Release,
                 Lock(s.user, s.owner, s.recursion, s.waiting,
                      s.threads[t := Thread(s.threads[t].top.(pc := Halted), s.threads[t].below,
                                            s.threads[t].count + if s.user then 1 else 0)]))
  {
    hide Reachable, Ends;
    var e := Entered(s, t, Release);
    var e1 := e.(frame := e.frame.(pc := RelCheck), count := s.threads[t].count + if s.user then 1 else 0);
    var e2 := e1.(frame := e1.frame.(pc := Halted));
    TraceEnds(s, t, Release, if s.user then [e, e1, e2] else [e1, e2]);
  }

  /** A take and a release leave everything as it was. */
  lemma TakeThenRelease(s: Lock, t: nat, op: Op) returns (mid: Lock)
    requires Reachable(s) && Allowed(s, t, op) && IsTake(op) && s.owner == 0
    ensures Ends(s, t, op, mid) && Reachable(mid) && mid.owner == t && Allowed(mid, t, Release)
    ensures Ends(mid, t, Release, s.(waiting := false))
  {
    hide Reachable, Ends;
    mid := Put(s, t, Taken(s, t));
    TakesFree(s, t, op);
    EndsReachable(s, t, op, mid);
    assert Allowed(mid, t, Release);
    Releases(mid, t);
    ReachableInv(s);
    assert ThreadFits(s, t, s.threads[t]);
    assert mid.threads[t := s.threads[t]] == s.threads;
  }

  lemma EndsReachable(s: Lock, t: nat, op: Op, s': Lock)
    requires Reachable(s) && Ends(s, t, op, s')
    ensures Reachable(s')
  {
    hide Fresh, Runs, Alone;
    var s0: Lock, es: seq<Event> :| Fresh(s0) && Runs(s0, es, s);
    var n: nat :| n <= STEPS && Runs(s, Alone(t, op, n), s');
    RunsJoin(s0, es, s, Alone(t, op, n), s');
  }

  lemma {:induction false} RunsJoin(a: Lock, es: seq<Event>, b: Lock, fs: seq<Event>, c: Lock)
    requires Runs(a, es, b) && Runs(b, fs, c)
    ensures Runs(a, es + fs, c)
    decreases |es|
  {
    hide Enabled, Step;
    if es == [] {
      assert es + fs == fs;
    } else {
      RunsJoin(Step(a, es[0]), es[1..], b, fs, c);
      assert (es + fs)[1..] == es[1..] + fs;
    }
  }

  /** A block check, which the scheduler runs for a thread that waits, marks the lock and
      changes nothing else. */
  lemma PollMarks(s: Lock, t: nat)
    requires Reachable(s) && Enabled(s, Polled(t))
    ensures Step(s, Polled(t)) == Lock(s.user, s.owner, s.recursion, true, s.threads)
  {}

  // ---------- Handing it over ----------

  /** The last step before the swap. */
  function Swapping(s: Lock, t: nat, u: nat): Effect
    requires t in s.threads
  {
    Now(s, t).(frame := s.threads[t].top.(pc := XferCas(u)), count := s.threads[t].count - 1)
  }

  lemma TransferTrace(s: Lock, t: nat, u: nat) returns (es: seq<Effect>)
    requires t in s.threads && s.owner == t
    ensures |es| == 3 && Trace(s, t, es) && es[0] == Entered(s, t, Transfer(u)) && es[2] == Swapping(s, t, u)
  {
    var e := Entered(s, t, Transfer(u));
    es := [e, e.(frame := e.frame.(pc := XferDec(u))), Swapping(s, t, u)];
  }

  lemma {:induction false} TransferStarts(s: Lock, t: nat, u: nat)
    requires Allowed(s, t, Transfer(u)) && s.owner == t
    ensures Runs(s, Alone(t, Transfer(u), 2), Put(s, t, Swapping(s, t, u)))
  {
    hide Trace, Runs, Own, Entered, Swapping;
    var es := TransferTrace(s, t, u);
    TraceRuns(s, t, es);
    CallPuts(s, t, Transfer(u));
    CallRuns(s, t, Transfer(u), 2, Put(s, t, Swapping(s, t, u)));
  }

  lemma {:induction false} AloneJoins(s: Lock, t: nat, op: Op, m: nat, mid: Lock, n: nat, s': Lock)
    requires Runs(s, Alone(t, op, m), mid) && Runs(mid, Only(t, n), s') && m + n <= STEPS
    ensures Ends(s, t, op, s')
  {
    hide Runs;
    RunsJoin(s, Alone(t, op, m), mid, Only(t, n), s');
    assert Alone(t, op, m) + Only(t, n) == Alone(t, op, m + n);
  }

  /** A transfer to a thread that is switched out: that thread owns the lock, with as many
      takes, and runs; the one that made the transfer is switched out, without any. The lock
      is counted for the one and no longer for the other. */
  lemma TransferHands(s: Lock, t: nat, u: nat)
    requires Reachable(s) && Allowed(s, t, Transfer(u)) && u != t
    ensures s.owner == t && s.threads[t].top.takes == s.recursion
    ensures Ends(s, t, Transfer(u),
                 Lock(s.user, u, s.recursion, s.waiting,
                      s.threads[t := Thread(Frame(Parked, 0, false), s.threads[t].below, s.threads[t].count - 1)]
                               [u := Thread(Frame(Resumed, s.recursion, true), s.threads[u].below, s.threads[u].count + 1)]))
  {
    hide Reachable, Ends, Runs, Alone, Own;
    TakerOwns(s, t);
    TransferStarts(s, t, u);
    var th, tu := s.threads[t], s.threads[u];
    var a := Put(s, t, Swapping(s, t, u));
    var b := Lock(s.user, u, s.recursion, s.waiting,
                  s.threads[t := Thread(Frame(XferInc(u), 0, false), th.below, th.count - 1)]
                           [u := Thread(Frame(Handed(t), s.recursion, true), tu.below, tu.count)]);
    var c := Lock(s.user, u, s.recursion, s.waiting,
                  s.threads[t := Thread(Frame(Parked, 0, false), th.below, th.count - 1)]
                           [u := Thread(Frame(Resumed, s.recursion, true), tu.below, tu.count + 1)]);
    assert Run(a, t) == b;
    assert Run(b, t) == c;
    TwoRuns(a, b, c, t);
    AloneJoins(s, t, Transfer(u), 2, a, 2, c);
  }

  lemma {:induction false} TwoRuns(a: Lock, b: Lock, c: Lock, t: nat)
    requires t in a.threads && t in b.threads && Run(a, t) == b && Run(b, t) == c
    ensures Runs(a, Only(t, 2), c)
  {
    hide Run;
    assert Only(t, 2)[1..] == Only(t, 1) && Only(t, 1)[1..] == [];
    assert Runs(c, Only(t, 1)[1..], c);
    assert Runs(b, Only(t, 1), c);
  }

  lemma TakerOwns(s: Lock, t: nat)
    requires Reachable(s) && t in s.threads && s.threads[t].top.pc == Idle && s.threads[t].top.takes > 0
    ensures s.owner == t && s.threads[t].top.holds && s.threads[t].top.takes == s.recursion
  {
    hide Reachable;
    ReachableInv(s);
    assert ThreadFits(s, t, s.threads[t]);
  }

  /** A transfer to itself changes nothing but what follows: the thread gives up one take. */
  lemma TransferToSelf(s: Lock, t: nat)
    requires Reachable(s) && Allowed(s, t, Transfer(t))
    ensures s.owner == t
    ensures Ends(s, t, Transfer(t), Put(s, t, Now(s, t).(frame := Frame(Resumed, s.recursion, true))))
  {
    hide Reachable, Ends, Runs, Alone, Own;
    TakerOwns(s, t);
    TransferStarts(s, t, t);
    var th := s.threads[t];
    var a := Put(s, t, Swapping(s, t, t));
    var b := Put(s, t, Now(s, t).(frame := Frame(XferInc(t), s.recursion, true), count := th.count - 1));
    var c := Put(s, t, Now(s, t).(frame := Frame(Resumed, s.recursion, true)));
    assert Run(a, t) == b;
    assert Run(b, t) == c;
    TwoRuns(a, b, c, t);
    AloneJoins(s, t, Transfer(t), 2, a, 2, c);
  }

  /** What a thread does once it is switched to: it gives up one take, and with the last of
      them the lock. */
  lemma SwitchedToGivesUp(s: Lock, t: nat)
    requires Reachable(s) && t in s.threads && s.threads[t].top.pc == Resumed
    ensures s.owner == t && s.threads[t].top.takes == s.recursion >= 1 && !s.user
    ensures s.recursion == 1 ==>
              Leads(s, t, Lock(false, 0, 0, s.waiting,
                               s.threads[t := Thread(Frame(Idle, 0, false), s.threads[t].below, s.threads[t].count - 1)]))
    ensures s.recursion > 1 ==>
              Leads(s, t, Lock(false, t, s.recursion - 1, s.waiting,
                               s.threads[t := Thread(Frame(Idle, s.recursion - 1, true), s.threads[t].below, s.threads[t].count)]))
  {
    hide Reachable, Trace;
    ResumedOwns(s, t);
    OwnerHolds(s, t);
    var es := GivesUp(s, t);
    Follow(s, t, Now(s, t), es);
    PutKeys(s, t, Now(s, t));
    TraceRuns(s, t, [Now(s, t)] + es);
  }

  lemma ResumedOwns(s: Lock, t: nat)
    requires Reachable(s) && t in s.threads && s.threads[t].top.pc == Resumed
    ensures s.owner == t && !s.user
  {
    hide Reachable;
    ReachableInv(s);
    assert ThreadFits(s, t, s.threads[t]);
  }
}
