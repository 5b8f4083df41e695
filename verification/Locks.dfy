/** The kernel lock under every interleaving of threads. Each call has a program counter
    that stops at every access to shared state, so the gaps between the compare-and-swap
    on the owner, the recursion count and the per-thread lock counts are all visible. A
    thread is a stack of frames: an interrupt or a yield puts a frame on top of whatever
    the thread was doing, even in the middle of a call, and that frame may take the lock,
    hand it to a thread that is switched out, and be switched out itself. */
module Locks {

  datatype Pc =
    | Idle
    // TakeExclusive
    | TakeCheck                 // already held by this thread?
    | TakeLoop                  // outer loop test
    | TakeCas                   // compare and swap 0 -> this thread
    | TakeBlocked               // blocked; may go on at any time, to try again
    | TakePost                  // waiting = false
    | TakeTest                  // recursionCount must be 0
    | TakeInc                   // ++recursionCount
    | TakeCount                 // IncrementLockCount
    | UserDec                   // BT_LOCK, BT_TRY_LOCK: DecrementLockCount
    // TakeRecursive and TryTakeRecursive: the test, then either path
    | RecCheck | TryRecCheck
    | RecInc                    // ++recursionCount
    // TryTakeExclusive
    | TryCheck | TryCas
    // Release
    | UserInc                   // BT_UNLOCK: IncrementLockCount
    | RelCheck                  // held by this thread?
    | RelDec                    // --recursionCount
    | RelTest                   // recursionCount == 0?
    | RelCas                    // compare and swap this thread -> 0
    | RelCount                  // DecrementLockCount
    // Transfer, and the stack switch that follows it
    | XferCheck(to: nat)
    | XferDec(to: nat)          // DecrementLockCount
    | XferCas(to: nat)          // compare and swap this thread -> to
    | XferInc(to: nat)          // to->IncrementLockCount
    | Parked                    // switched out
    | Handed(from: nat)         // owns the lock, but its stack is not yet switched to
    | Resumed                   // sch_unlock, on the stack switched to: still the owner?
    // Not returning: misuse by the caller, or the recursion count panic
    | Halted
    | Panicked

  datatype Op = Take | TakeRecursive | TryTake | TryTakeRecursive | Release | Transfer(to: nat)

  /** One level of a thread: its program counter; how many takes of this lock it has
      returned from and not yet begun to release (a transfer hands them over); and whether
      it is the level that owns the lock. */
  datatype Frame = Frame(pc: Pc, takes: int, holds: bool)

  const IDLE := Frame(Idle, 0, false)

  /** A thread: its running frame, the frames that one interrupted, nearest first, and its
      lock count. */
  datatype Thread = Thread(top: Frame, below: seq<Frame>, count: int)

  /** `user` marks a lock reached only through the user-space lock calls. */
  datatype Lock = Lock(user: bool, owner: nat, recursion: int, waiting: bool, threads: map<nat, Thread>)

  // ---------- Steps ----------

  /** Not running: its stack is switched out. */
  predicate Away(p: Pc) { p.Parked? || p.Handed? }

  /** What a frame may call. The thread's own code makes any call but Transfer, rightly or
      wrongly. A frame of the scheduler tries to take the lock, and gives up only what it
      took: by releasing it, or by a transfer to itself or to a thread that is parked. */
  predicate Allowed(s: Lock, t: nat, op: Op) {
    && t in s.threads && s.threads[t].top.pc == Idle
    && (s.user ==> op.Take? || op.TryTake? || op.Release?)
    && (if s.threads[t].below == [] then !op.Transfer?
        else op.TryTake? || ((op.Release? || op.Transfer?) && s.threads[t].top.takes > 0))
    && (op.Transfer? ==> op.to in s.threads && (op.to == t || s.threads[op.to].top.pc.Parked?))
  }

  function Entry(user: bool, op: Op): Pc {
    match op
    case Take => TakeCheck
    case TakeRecursive => RecCheck
    case TryTake => TryCheck
    case TryTakeRecursive => TryRecCheck
    case Release => if user then UserInc else RelCheck
    case Transfer(to) => XferCheck(to)
  }

  function SetTop(s: Lock, t: nat, f: Frame, count: int): Lock
    requires t in s.threads
  {
    s.(threads := s.threads[t := s.threads[t].(top := f, count := count)])
  }

  function Call(s: Lock, t: nat, op: Op): Lock
    requires Allowed(s, t, op)
  {
    SetTop(s, t, s.threads[t].top.(pc := Entry(s.user, op)), s.threads[t].count)
  }

  /** One atomic step of a frame that involves no other thread: the new owner, recursion
      count and waiting flag, the frame and its thread's lock count. */
  datatype Effect = Effect(owner: nat, recursion: int, waiting: bool, frame: Frame, count: int)

  function Own(s: Lock, t: nat, f: Frame, count: int): Effect {
    var stay := Effect(s.owner, s.recursion, s.waiting, f, count);
    match f.pc
    case TakeCheck => stay.(frame := f.(pc := if s.owner == t then Halted else TakeLoop))
    case TakeLoop => stay.(frame := f.(pc := if s.owner != t then TakeCas else TakePost))
    case TakeCas =>
      if s.owner == 0 then stay.(owner := t, frame := f.(pc := TakeLoop, holds := true))
      else stay.(frame := f.(pc := TakeBlocked))
    case TakeBlocked => stay.(frame := f.(pc := TakeCas))
    case TakePost => stay.(waiting := false, frame := f.(pc := TakeTest))
    case TakeTest => stay.(frame := f.(pc := if s.recursion != 0 then Panicked else TakeInc))
    case TakeInc => stay.(recursion := s.recursion + 1, frame := f.(pc := TakeCount))
    case TakeCount =>
      stay.(frame := f.(pc := if s.user then UserDec else Idle, takes := f.takes + 1), count := count + 1)
    case UserDec => stay.(frame := f.(pc := Idle), count := count - 1)
    case RecCheck => stay.(frame := f.(pc := if s.owner == t then RecInc else TakeCheck))
    case TryRecCheck => stay.(frame := f.(pc := if s.owner == t then RecInc else TryCheck))
    case RecInc => stay.(recursion := s.recursion + 1, frame := f.(pc := Idle, takes := f.takes + 1))
    case TryCheck => stay.(frame := f.(pc := if s.owner == t then Idle else TryCas))
    case TryCas =>
      if s.owner == 0 then stay.(owner := t, frame := f.(pc := TakePost, holds := true))
      else stay.(frame := f.(pc := Idle))
    case UserInc => stay.(frame := f.(pc := RelCheck), count := count + 1)
    case RelCheck =>
      stay.(frame := if s.owner != t then f.(pc := Halted) else f.(pc := RelDec, takes := f.takes - 1))
    case RelDec => stay.(recursion := s.recursion - 1, frame := f.(pc := RelTest))
    case RelTest => stay.(frame := f.(pc := if s.recursion == 0 then RelCas else Idle))
    case RelCas =>
      if s.owner == t then stay.(owner := 0, frame := f.(pc := RelCount, holds := false)) else stay
    case RelCount => stay.(frame := f.(pc := Idle), count := count - 1)
    case XferCheck(to) => stay.(frame := f.(pc := if s.owner != t then Halted else XferDec(to)))
    case XferDec(to) => stay.(frame := f.(pc := XferCas(to)), count := count - 1)
    case Resumed => stay.(frame := f.(pc := if s.owner == t then RelCheck else Idle))
    case _ => stay
  }

  /** The swap of a transfer, from t to u. */
  function Swap(s: Lock, t: nat, u: nat): Lock
    requires t in s.threads && u in s.threads
  {
    if s.owner != t then s else
    var f := s.threads[t].top;
    if t == u then SetTop(s, t, f.(pc := XferInc(u)), s.threads[t].count) else
    var s1 := SetTop(s, u, Frame(Handed(t), f.takes, true), s.threads[u].count);
    SetTop(s1, t, Frame(XferInc(u), 0, false), s.threads[t].count).(owner := u)
  }

  /** The end of a transfer: count the lock for its new owner and switch to its stack. */
  function Credit(s: Lock, t: nat, u: nat): Lock
    requires t in s.threads && u in s.threads
  {
    var s1 := SetTop(s, u, s.threads[u].top.(pc := Resumed), s.threads[u].count + 1);
    if t == u then s1 else SetTop(s1, t, s.threads[t].top.(pc := Parked), s.threads[t].count)
  }

  function Run(s: Lock, t: nat): Lock
    requires t in s.threads
  {
    var th := s.threads[t];
    if th.top.pc.XferCas? then (if th.top.pc.to in s.threads then Swap(s, t, th.top.pc.to) else s)
    else if th.top.pc.XferInc? then (if th.top.pc.to in s.threads then Credit(s, t, th.top.pc.to) else s)
    else
      var e := Own(s, t, th.top, th.count);
      SetTop(s, t, e.frame, e.count).(owner := e.owner, recursion := e.recursion, waiting := e.waiting)
  }

  /** An interrupt, or a yield, on a thread that is running. */
  predicate CanInterrupt(s: Lock, t: nat) {
    t in s.threads && !s.user && !Away(s.threads[t].top.pc) && !s.threads[t].top.pc.Halted?
  }

  function Interrupt(s: Lock, t: nat): Lock
    requires CanInterrupt(s, t)
  {
    var th := s.threads[t];
    s.(threads := s.threads[t := Thread(IDLE, [th.top] + th.below, th.count)])
  }

  /** The frame returns to what it interrupted, having given up what it took. */
  predicate CanReturn(s: Lock, t: nat) {
    t in s.threads && s.threads[t].below != [] && s.threads[t].top.pc == Idle && s.threads[t].top.takes == 0
  }

  function Return(s: Lock, t: nat): Lock
    requires CanReturn(s, t)
  {
    var th := s.threads[t];
    s.(threads := s.threads[t := Thread(th.below[0], th.below[1..], th.count)])
  }

  /** The scheduler, on any thread, runs the block check of one that waits for the lock, at
      whatever level it waits. */
  predicate Waits(f: Frame, below: seq<Frame>)
    decreases |below|
  {
    f.pc.TakeBlocked? || (below != [] && Waits(below[0], below[1..]))
  }

  predicate CanPoll(s: Lock, t: nat) {
    t in s.threads && Waits(s.threads[t].top, s.threads[t].below)
  }

  function Poll(s: Lock): Lock { s.(waiting := true) }

  // ---------- The invariant ----------

  /** Who can be at a position: only the frame that owns the lock, any other frame, or
      both; only the thread's own code, only a frame of the scheduler, or both. */
  datatype Who = Holder | Other | Anyone
  datatype Level = Base | Nested | Any

  function WhoAt(p: Pc): Who {
    match p
    case TakePost | TakeTest | TakeInc | TakeCount | UserDec | RecInc => Holder
    case RelDec | RelTest | RelCas | XferCheck(_) | XferDec(_) | XferCas(_) | Handed(_) | Resumed => Holder
    case TakeCas | TakeBlocked | TryCas | RelCount | Parked => Other
    case _ => Anyone
  }

  function LevelAt(p: Pc): Level {
    match p
    case TakeCheck | TakeLoop | TakeCas | TakeBlocked | RecCheck | TryRecCheck | RecInc | UserInc | UserDec => Base
    case XferCheck(_) | XferDec(_) | XferCas(_) | XferInc(_) | Parked | Handed(_) | Resumed => Nested
    case _ => Any
  }

  /** The owner has won the compare and swap and not yet counted itself in. */
  predicate Entering(p: Pc) { p.TakeLoop? || p.TakePost? || p.TakeTest? || p.TakeInc? }

  /** The recursion count that the holder's position requires, given its outstanding takes. */
  predicate CountFits(p: Pc, recursion: int, takes: int) {
    match p
    case TakeLoop | TakePost | TakeTest | TakeInc | RelCas => recursion == 0 && takes == 0
    case TakeCount => recursion == 1 && takes == 0
    case RelDec => recursion == takes + 1 && 0 <= takes
    case RelTest => recursion == takes && 0 <= takes
    case _ => recursion == takes && 1 <= takes
  }

  /** What a frame's position allows: the holder's takes are the recursion count but for its
      own unfinished call; no other frame has any. */
  predicate Fits(f: Frame, nested: bool, recursion: int) {
    && !f.pc.Panicked? && LevelAt(f.pc) != (if nested then Base else Nested)
    && (nested && f.pc.RelCheck? ==> f.holds)
    && (if f.holds then WhoAt(f.pc) != Other && CountFits(f.pc, recursion, f.takes)
        else WhoAt(f.pc) != Holder && f.takes == 0)
  }

  predicate StackFits(f: Frame, below: seq<Frame>, recursion: int)
    decreases |below|
  {
    Fits(f, below != [], recursion) && (below != [] ==> StackFits(below[0], below[1..], recursion))
  }

  function Holders(f: Frame, below: seq<Frame>): nat
    decreases |below|
  {
    (if f.holds then 1 else 0) + (if below == [] then 0 else Holders(below[0], below[1..]))
  }

  /** The other end of a transfer: the target stays parked until the swap, and then waits
      for this thread to finish. */
  predicate LinkFits(threads: map<nat, Thread>, t: nat, f: Frame) {
    && (Linking(f.pc) ==>
          f.pc.to in threads && (f.pc.to == t || threads[f.pc.to].top.pc.Parked?))
    && (f.pc.XferInc? ==>
          f.pc.to in threads && if f.pc.to == t then f.holds else !f.holds && threads[f.pc.to].top.pc == Handed(t))
  }

  predicate Linking(p: Pc) { p.XferCheck? || p.XferDec? || p.XferCas? }

  /** No frame of a stack is inside a transfer. */
  predicate NoLinks(f: Frame, below: seq<Frame>)
    decreases |below|
  {
    !Linking(f.pc) && !f.pc.XferInc? && (below != [] ==> NoLinks(below[0], below[1..]))
  }

  /** At most one is. */
  predicate LinksFit(threads: map<nat, Thread>, t: nat, f: Frame, below: seq<Frame>)
    decreases |below|
  {
    && LinkFits(threads, t, f)
    && (below != [] ==>
          && LinksFit(threads, t, below[0], below[1..])
          && (Linking(f.pc) || f.pc.XferInc? ==> NoLinks(below[0], below[1..])))
  }

  predicate ThreadFits(s: Lock, t: nat, th: Thread) {
    && StackFits(th.top, th.below, s.recursion)
    && Holders(th.top, th.below) == (if s.owner == t then 1 else 0)
    && LinksFit(s.threads, t, th.top, th.below)
    && (s.user ==> th.below == [])
  }

  predicate Inv(s: Lock) {
    && 0 !in s.threads
    && (s.owner == 0 ==> s.recursion == 0)
    && (s.owner != 0 ==> s.owner in s.threads)
    && forall t :: t in s.threads ==> ThreadFits(s, t, s.threads[t])
  }

  // ---------- Frame steps ----------

  function Bit(b: bool): nat { if b then 1 else 0 }

  /** What a step of a frame of t may do to the lock itself. */
  predicate OwnSafe(s: Lock, t: nat, f: Frame, nested: bool, e: Effect) {
    && (e.owner == s.owner || (s.owner == 0 && e.owner == t) || (s.owner == t && e.owner == 0))
    && Bit(e.frame.holds) - Bit(f.holds) == Bit(e.owner == t) - Bit(s.owner == t)
    && (e.recursion == s.recursion || f.holds)
    && (e.owner == 0 ==> e.recursion == 0)
    && Fits(e.frame, nested, e.recursion)
    && (Away(f.pc) ==> e.frame == f)
    && (Linking(e.frame.pc) ==> Linking(f.pc) && e.frame.pc.to == f.pc.to)
    && !e.frame.pc.XferInc?
  }

  /** What the frame that runs can count on. */
  predicate Running(s: Lock, t: nat, f: Frame, nested: bool) {
    && t != 0 && (s.owner == 0 ==> s.recursion == 0)
    && Fits(f, nested, s.recursion) && (f.holds ==> s.owner == t) && (!nested && s.owner == t ==> f.holds)
    && !f.pc.XferCas? && !f.pc.XferInc? && (s.user ==> !nested)
  }

  predicate Acquiring(p: Pc) { p.TakeCheck? || p.TakeLoop? || p.TakeCas? || p.TakeBlocked? }

  predicate Trying(p: Pc) { p.TryCheck? || p.TryCas? || p.RecCheck? || p.TryRecCheck? || p.RecInc? || p.Resumed? }

  predicate Counting(p: Pc) { p.TakePost? || p.TakeTest? || p.TakeInc? || p.TakeCount? || p.UserDec? }

  predicate Releasing(p: Pc) { p.UserInc? || p.RelCheck? || p.RelDec? || p.RelTest? }

  lemma AcquiringIsSafe(s: Lock, t: nat, f: Frame, nested: bool, count: int)
    requires Running(s, t, f, nested) && Acquiring(f.pc)
    ensures OwnSafe(s, t, f, nested, Own(s, t, f, count))
  {}

  lemma TryingIsSafe(s: Lock, t: nat, f: Frame, nested: bool, count: int)
    requires Running(s, t, f, nested) && Trying(f.pc)
    ensures OwnSafe(s, t, f, nested, Own(s, t, f, count))
  {}

  lemma CountingIsSafe(s: Lock, t: nat, f: Frame, nested: bool, count: int)
    requires Running(s, t, f, nested) && Counting(f.pc)
    ensures OwnSafe(s, t, f, nested, Own(s, t, f, count))
  {}

  lemma ReleasingIsSafe(s: Lock, t: nat, f: Frame, nested: bool, count: int)
    requires Running(s, t, f, nested) && Releasing(f.pc)
    ensures OwnSafe(s, t, f, nested, Own(s, t, f, count))
  {}

  lemma OtherIsSafe(s: Lock, t: nat, f: Frame, nested: bool, count: int)
    requires Running(s, t, f, nested) && !Acquiring(f.pc) && !Trying(f.pc) && !Counting(f.pc) && !Releasing(f.pc)
    ensures OwnSafe(s, t, f, nested, Own(s, t, f, count))
  {}

  lemma OwnIsSafe(s: Lock, t: nat, f: Frame, nested: bool, count: int)
    requires Running(s, t, f, nested)
    ensures OwnSafe(s, t, f, nested, Own(s, t, f, count))
  {
    hide OwnSafe, Running, Own;
    if Acquiring(f.pc) {
      AcquiringIsSafe(s, t, f, nested, count);
    } else if Trying(f.pc) {
      TryingIsSafe(s, t, f, nested, count);
    } else if Counting(f.pc) {
      CountingIsSafe(s, t, f, nested, count);
    } else if Releasing(f.pc) {
      ReleasingIsSafe(s, t, f, nested, count);
    } else {
      OtherIsSafe(s, t, f, nested, count);
    }
  }

  // ---------- Stacks ----------

  lemma {:induction false} StackIgnores(f: Frame, below: seq<Frame>, r: int, r': int)
    requires StackFits(f, below, r) && Holders(f, below) == 0
    ensures StackFits(f, below, r')
    decreases |below|
  {
    if below != [] { StackIgnores(below[0], below[1..], r, r'); }
  }

  /** Threads that are away stay as they are. */
  predicate KeepsAway(threads: map<nat, Thread>, threads': map<nat, Thread>) {
    forall u :: u in threads ==>
      u in threads' && (Away(threads[u].top.pc) ==> threads'[u].top.pc == threads[u].top.pc)
  }

  lemma {:induction false} LinksKept(threads: map<nat, Thread>, threads': map<nat, Thread>, t: nat, f: Frame, below: seq<Frame>)
    requires LinksFit(threads, t, f, below) && KeepsAway(threads, threads')
    ensures LinksFit(threads', t, f, below)
    decreases |below|
  {
    if below != [] { LinksKept(threads, threads', t, below[0], below[1..]); }
  }

  /** A step elsewhere: another thread that does not own the lock is not affected. */
  lemma {:induction false} OtherKept(s: Lock, s': Lock, u: nat)
    requires u in s.threads && ThreadFits(s, u, s.threads[u]) && u in s'.threads && s'.threads[u] == s.threads[u]
    requires s'.user == s.user && (s'.owner == u <==> s.owner == u) && KeepsAway(s.threads, s'.threads)
    requires s'.recursion == s.recursion || s.owner != u
    ensures ThreadFits(s', u, s'.threads[u])
  {
    var th := s.threads[u];
    LinksKept(s.threads, s'.threads, u, th.top, th.below);
    if s.owner != u { StackIgnores(th.top, th.below, s.recursion, s'.recursion); }
  }

  lemma RunningNow(s: Lock, t: nat)
    requires Inv(s) && t in s.threads && !s.threads[t].top.pc.XferCas? && !s.threads[t].top.pc.XferInc?
    ensures Running(s, t, s.threads[t].top, s.threads[t].below != [])
  {
    assert ThreadFits(s, t, s.threads[t]);
  }

  predicate Clear(below: seq<Frame>) { below == [] || NoLinks(below[0], below[1..]) }

  lemma {:induction false} TopFits(s: Lock, t: nat, e: Effect, s': Lock)
    requires Inv(s) && t in s.threads && OwnSafe(s, t, s.threads[t].top, s.threads[t].below != [], e)
    requires s' == SetTop(s, t, e.frame, e.count).(owner := e.owner, recursion := e.recursion, waiting := e.waiting)
    ensures ThreadFits(s', t, s'.threads[t]) && KeepsAway(s.threads, s'.threads)
  {
    hide Fits;
    var th := s.threads[t];
    assert ThreadFits(s, t, th);
    if th.below != [] {
      LinksKept(s.threads, s'.threads, t, th.below[0], th.below[1..]);
      if e.recursion != s.recursion { StackIgnores(th.below[0], th.below[1..], s.recursion, e.recursion); }
    }
  }

  lemma UpdateKeepsInv(s: Lock, t: nat, e: Effect)
    requires Inv(s) && t in s.threads && OwnSafe(s, t, s.threads[t].top, s.threads[t].below != [], e)
    ensures Inv(SetTop(s, t, e.frame, e.count).(owner := e.owner, recursion := e.recursion, waiting := e.waiting))
  {
    hide Fits, StackFits, Holders, LinksFit;
    var s' := SetTop(s, t, e.frame, e.count).(owner := e.owner, recursion := e.recursion, waiting := e.waiting);
    TopFits(s, t, e, s');
    HolderOwns(s, t);
    forall u | u in s.threads && u != t ensures ThreadFits(s', u, s'.threads[u]) {
      OtherKept(s, s', u);
    }
  }

  lemma HolderOwns(s: Lock, t: nat)
    requires Inv(s) && t in s.threads
    ensures s.threads[t].top.holds ==> s.owner == t
  {
    assert ThreadFits(s, t, s.threads[t]);
  }

  // ---------- Every step keeps the invariant ----------

  /** A frame moves on without touching the lock. */
  lemma {:induction false} MoveKeepsInv(s: Lock, t: nat, p: Pc, count: int)
    requires Inv(s) && t in s.threads && !Away(s.threads[t].top.pc)
    requires var f := s.threads[t].top.(pc := p);
             && Fits(f, s.threads[t].below != [], s.recursion) && LinkFits(s.threads, t, f)
             && (Linking(p) || p.XferInc? ==> Clear(s.threads[t].below))
    ensures Inv(SetTop(s, t, s.threads[t].top.(pc := p), count))
  {
    hide Fits, LinkFits;
    var th, f := s.threads[t], s.threads[t].top.(pc := p);
    var s' := SetTop(s, t, f, count);
    assert ThreadFits(s, t, th);
    OthersKept(s, s', t);
    LinkKept(s.threads, s'.threads, t, f);
    if th.below != [] { LinksKept(s.threads, s'.threads, t, th.below[0], th.below[1..]); }
  }

  lemma LinkKept(threads: map<nat, Thread>, threads': map<nat, Thread>, t: nat, f: Frame)
    requires LinkFits(threads, t, f) && KeepsAway(threads, threads')
    ensures LinkFits(threads', t, f)
  {}

  lemma EntryFits(s: Lock, t: nat, op: Op)
    requires Inv(s) && Allowed(s, t, op)
    ensures var f := s.threads[t].top.(pc := Entry(s.user, op));
            Fits(f, s.threads[t].below != [], s.recursion) && LinkFits(s.threads, t, f) && !f.pc.XferInc?
    ensures op.Transfer? ==> s.owner == t && s.threads[t].top.holds
  {
    assert ThreadFits(s, t, s.threads[t]);
  }

  lemma CallKeepsInv(s: Lock, t: nat, op: Op)
    requires Inv(s) && Allowed(s, t, op)
    ensures Inv(Call(s, t, op))
  {
    hide Inv, Fits, LinkFits;
    EntryFits(s, t, op);
    if op.Transfer? { BelowClear(s, t); }
    MoveKeepsInv(s, t, Entry(s.user, op), s.threads[t].count);
  }

  lemma BelowClear(s: Lock, t: nat)
    requires Inv(s) && t in s.threads && s.owner == t && s.threads[t].top.holds && !s.threads[t].top.pc.Handed?
    ensures Clear(s.threads[t].below)
  {
    var th := s.threads[t];
    assert ThreadFits(s, t, th);
    if th.below != [] { NoneLinked(s, t, t, th.below[0], th.below[1..]); }
  }

  lemma InterruptKeepsInv(s: Lock, t: nat)
    requires Inv(s) && CanInterrupt(s, t)
    ensures Inv(Interrupt(s, t))
  {
    hide Fits;
    var s', th := Interrupt(s, t), s.threads[t];
    assert ThreadFits(s, t, th);
    IdleFits(s.recursion);
    assert s'.threads[t].below[0] == th.top && s'.threads[t].below[1..] == th.below;
    LinksKept(s.threads, s'.threads, t, th.top, th.below);
    OthersKept(s, s', t);
  }

  lemma IdleFits(recursion: int)
    ensures Fits(IDLE, true, recursion)
  {}

  lemma ReturnKeepsInv(s: Lock, t: nat)
    requires Inv(s) && CanReturn(s, t)
    ensures Inv(Return(s, t))
  {
    var s', th := Return(s, t), s.threads[t];
    assert ThreadFits(s, t, th);
    LinksKept(s.threads, s'.threads, t, th.below[0], th.below[1..]);
    OthersKept(s, s', t);
  }

  lemma OthersKept(s: Lock, s': Lock, t: nat)
    requires Inv(s) && t in s.threads && !Away(s.threads[t].top.pc) && t in s'.threads
    requires s' == s.(threads := s.threads[t := s'.threads[t]])
    ensures KeepsAway(s.threads, s'.threads)
    ensures forall u :: u in s.threads && u != t ==> ThreadFits(s', u, s'.threads[u])
  {
    hide StackFits, Holders, LinksFit;
    forall u | u in s.threads && u != t ensures ThreadFits(s', u, s'.threads[u]) {
      OtherKept(s, s', u);
    }
  }

  lemma OwnKeepsInv(s: Lock, t: nat)
    requires Inv(s) && t in s.threads && !s.threads[t].top.pc.XferCas? && !s.threads[t].top.pc.XferInc?
    ensures Inv(Run(s, t))
  {
    hide Inv, Own, OwnSafe, Running;
    var th := s.threads[t];
    RunningNow(s, t);
    OwnIsSafe(s, t, th.top, th.below != [], th.count);
    UpdateKeepsInv(s, t, Own(s, t, th.top, th.count));
  }

  /** While a thread that is not waiting to be switched to owns the lock, no other frame is
      inside a transfer. */
  lemma {:induction false} NoneLinked(s: Lock, t: nat, u: nat, f: Frame, below: seq<Frame>)
    requires Inv(s) && t in s.threads && s.owner == t && !s.threads[t].top.pc.Handed?
    requires StackFits(f, below, s.recursion) && Holders(f, below) == 0 && LinksFit(s.threads, u, f, below)
    ensures NoLinks(f, below)
    decreases |below|
  {
    if f.pc.XferInc? {
      HandedOwns(s, f.pc.to);
    }
    if below != [] { NoneLinked(s, t, u, below[0], below[1..]); }
  }

  lemma HandedOwns(s: Lock, u: nat)
    requires Inv(s) && u in s.threads
    ensures s.threads[u].top.pc.Handed? ==> s.owner == u
  {
    assert ThreadFits(s, u, s.threads[u]);
  }

  lemma {:induction false} NoLinksFit(threads: map<nat, Thread>, t: nat, f: Frame, below: seq<Frame>)
    requires NoLinks(f, below)
    ensures LinksFit(threads, t, f, below)
    decreases |below|
  {
    if below != [] { NoLinksFit(threads, t, below[0], below[1..]); }
  }

  lemma SelfSwapFits(s: Lock, t: nat)
    requires Inv(s) && t in s.threads && s.threads[t].top.pc == XferCas(t)
    ensures var f := s.threads[t].top.(pc := XferInc(t));
            && s.owner == t && f.holds && Fits(f, s.threads[t].below != [], s.recursion) && LinkFits(s.threads, t, f)
  {
    assert ThreadFits(s, t, s.threads[t]);
  }

  /** Frames on both ends of a transfer. */
  lemma SwapFrames(f: Frame, to: nat, g: Frame, nested: bool, nested': bool, recursion: int)
    requires Fits(f, nested, recursion) && f.pc == XferCas(to)
    ensures f.holds && Fits(Frame(XferInc(to), 0, false), nested, recursion)
    ensures Fits(g, nested', recursion) && g.pc.Parked? ==>
              !g.holds && forall t :: Fits(Frame(Handed(t), f.takes, true), nested', recursion)
  {}

  lemma CreditFrames(f: Frame, nested: bool, recursion: int)
    requires Fits(f, nested, recursion)
    ensures f.pc.Handed? ==> f.holds && Fits(f.(pc := Resumed), nested, recursion)
    ensures f.pc.XferInc? && !f.holds ==> Fits(f.(pc := Parked), nested, recursion)
    ensures f.pc.Resumed? ==> f.holds && recursion == f.takes >= 1
  {}

  /** The two ends of a swap, and everybody else. */
  lemma {:induction false} SwapFrom(s: Lock, t: nat, u: nat)
    requires Inv(s) && t in s.threads && u in s.threads && u != t && s.threads[t].top.pc == XferCas(u)
    ensures s.owner == t && ThreadFits(Swap(s, t, u), t, Swap(s, t, u).threads[t])
  {
    hide Fits;
    var s', th := Swap(s, t, u), s.threads[t];
    assert ThreadFits(s, t, th);
    SwapFrames(th.top, u, th.top, th.below != [], false, s.recursion);
    if th.below != [] { NoLinksFit(s'.threads, t, th.below[0], th.below[1..]); }
  }

  lemma {:induction false} SwapTo(s: Lock, t: nat, u: nat)
    requires Inv(s) && t in s.threads && u in s.threads && u != t && s.threads[t].top.pc == XferCas(u) && s.owner == t
    ensures ThreadFits(Swap(s, t, u), u, Swap(s, t, u).threads[u])
  {
    hide Fits;
    var s', th := Swap(s, t, u), s.threads[u];
    assert ThreadFits(s, u, th) && ThreadFits(s, t, s.threads[t]);
    SwapFrames(s.threads[t].top, u, th.top, s.threads[t].below != [], th.below != [], s.recursion);
    if th.below != [] {
      NoneLinked(s, t, u, th.below[0], th.below[1..]);
      NoLinksFit(s'.threads, u, th.below[0], th.below[1..]);
    }
  }

  lemma SwapKeepsInv(s: Lock, t: nat)
    requires Inv(s) && t in s.threads && s.threads[t].top.pc.XferCas?
    ensures Inv(Run(s, t))
  {
    hide StackFits, Holders, Fits, LinkFits;
    var u := s.threads[t].top.pc.to;
    TargetKnown(s, t);
    if u == t {
      SelfSwapFits(s, t);
      BelowClear(s, t);
      MoveKeepsInv(s, t, XferInc(t), s.threads[t].count);
    } else {
      var s' := Swap(s, t, u);
      SwapFrom(s, t, u);
      SwapTo(s, t, u);
      forall v | v in s.threads && v != t && v != u ensures ThreadFits(s', v, s'.threads[v]) {
        assert ThreadFits(s, v, s.threads[v]);
        NoneLinked(s, t, v, s.threads[v].top, s.threads[v].below);
        NoLinksFit(s'.threads, v, s.threads[v].top, s.threads[v].below);
      }
    }
  }

  lemma TargetKnown(s: Lock, t: nat)
    requires Inv(s) && t in s.threads && (Linking(s.threads[t].top.pc) || s.threads[t].top.pc.XferInc?)
    ensures s.threads[t].top.pc.to in s.threads
  {
    assert ThreadFits(s, t, s.threads[t]);
  }

  /** While u waits to be switched to by t, no frame of another thread is inside a transfer. */
  lemma {:induction false} OnlyOneLinked(s: Lock, t: nat, u: nat, v: nat, f: Frame, below: seq<Frame>)
    requires Inv(s) && u in s.threads && s.threads[u].top.pc == Handed(t) && v != t
    requires StackFits(f, below, s.recursion) && Holders(f, below) == 0 && LinksFit(s.threads, v, f, below)
    ensures NoLinks(f, below)
    decreases |below|
  {
    HandedOwns(s, u);
    if f.pc.XferInc? { HandedOwns(s, f.pc.to); }
    if below != [] { OnlyOneLinked(s, t, u, v, below[0], below[1..]); }
  }

  lemma SelfCreditFits(s: Lock, t: nat)
    requires Inv(s) && t in s.threads && s.threads[t].top.pc == XferInc(t)
    ensures var f := s.threads[t].top.(pc := Resumed);
            && s.owner == t && f.holds && Fits(f, s.threads[t].below != [], s.recursion) && LinkFits(s.threads, t, f)
  {
    assert ThreadFits(s, t, s.threads[t]);
  }

  lemma {:induction false} CreditFrom(s: Lock, t: nat, u: nat)
    requires Inv(s) && t in s.threads && u in s.threads && u != t && s.threads[t].top.pc == XferInc(u)
    ensures s.owner == u && s.threads[u].top.pc == Handed(t)
    ensures ThreadFits(Credit(s, t, u), t, Credit(s, t, u).threads[t])
  {
    hide Fits;
    var s', th := Credit(s, t, u), s.threads[t];
    assert ThreadFits(s, t, th);
    HandedOwns(s, u);
    CreditFrames(th.top, th.below != [], s.recursion);
    if th.below != [] { NoLinksFit(s'.threads, t, th.below[0], th.below[1..]); }
  }

  lemma {:induction false} CreditTo(s: Lock, t: nat, u: nat)
    requires Inv(s) && t in s.threads && u in s.threads && u != t && s.threads[u].top.pc == Handed(t) && s.owner == u
    ensures ThreadFits(Credit(s, t, u), u, Credit(s, t, u).threads[u])
  {
    hide Fits;
    var s', th := Credit(s, t, u), s.threads[u];
    assert ThreadFits(s, u, th);
    CreditFrames(th.top, th.below != [], s.recursion);
    if th.below != [] {
      OnlyOneLinked(s, t, u, u, th.below[0], th.below[1..]);
      NoLinksFit(s'.threads, u, th.below[0], th.below[1..]);
    }
  }

  lemma CreditKeepsInv(s: Lock, t: nat)
    requires Inv(s) && t in s.threads && s.threads[t].top.pc.XferInc?
    ensures Inv(Run(s, t))
  {
    hide StackFits, Holders, Fits, LinkFits;
    var u := s.threads[t].top.pc.to;
    TargetKnown(s, t);
    if u == t {
      SelfCreditFits(s, t);
      MoveKeepsInv(s, t, Resumed, s.threads[t].count + 1);
    } else {
      var s' := Credit(s, t, u);
      CreditFrom(s, t, u);
      CreditTo(s, t, u);
      forall v | v in s.threads && v != t && v != u ensures ThreadFits(s', v, s'.threads[v]) {
        assert ThreadFits(s, v, s.threads[v]);
        OnlyOneLinked(s, t, u, v, s.threads[v].top, s.threads[v].below);
        NoLinksFit(s'.threads, v, s.threads[v].top, s.threads[v].below);
      }
    }
  }

  // ---------- Safety over all interleavings ----------

  datatype Event = Called(t: nat, op: Op) | Ran(t: nat) | Interrupted(t: nat) | Returned(t: nat) | Polled(t: nat)

  predicate Enabled(s: Lock, e: Event) {
    match e
    case Called(t, op) => Allowed(s, t, op)
    case Ran(t) => t in s.threads
    case Interrupted(t) => CanInterrupt(s, t)
    case Returned(t) => CanReturn(s, t)
    case Polled(t) => CanPoll(s, t)
  }

  function Step(s: Lock, e: Event): Lock
    requires Enabled(s, e)
  {
    match e
    case Called(t, op) => Call(s, t, op)
    case Ran(t) => Run(s, t)
    case Interrupted(t) => Interrupt(s, t)
    case Returned(t) => Return(s, t)
    case Polled(_) => Poll(s)
  }

  predicate Runs(s: Lock, es: seq<Event>, s': Lock)
    decreases |es|
  {
    if es == [] then s' == s else Enabled(s, es[0]) && Runs(Step(s, es[0]), es[1..], s')
  }

  /** Threads that have run so far, and threads that will start by being switched to. */
  predicate Fresh(s: Lock) {
    && s.owner == 0 && s.recursion == 0 && 0 !in s.threads
    && forall t :: t in s.threads ==>
         var th := s.threads[t];
         (th.top == IDLE && th.below == []) || (!s.user && th.top == Frame(Parked, 0, false) && th.below == [IDLE])
  }

  lemma FreshInv(s: Lock)
    requires Fresh(s)
    ensures Inv(s)
  {
    forall t | t in s.threads ensures ThreadFits(s, t, s.threads[t]) {
      if s.threads[t].below != [] {
        assert StackFits(IDLE, [], 0) && Holders(IDLE, []) == 0 && LinksFit(s.threads, t, IDLE, []);
      }
    }
  }

  lemma PollKeepsInv(s: Lock)
    requires Inv(s)
    ensures Inv(Poll(s))
  {
    forall t | t in s.threads ensures ThreadFits(Poll(s), t, s.threads[t]) {
      assert ThreadFits(s, t, s.threads[t]);
    }
  }

  /** Every step of every thread keeps the invariant. */
  lemma StepKeepsInv(s: Lock, e: Event)
    requires Inv(s) && Enabled(s, e)
    ensures Inv(Step(s, e))
  {
    hide Inv, Own;
    match e {
      case Called(t, op) => CallKeepsInv(s, t, op);
      case Interrupted(t) => InterruptKeepsInv(s, t);
      case Returned(t) => ReturnKeepsInv(s, t);
      case Polled(_) => PollKeepsInv(s);
      case Ran(t) =>
        if s.threads[t].top.pc.XferCas? {
          SwapKeepsInv(s, t);
        } else if s.threads[t].top.pc.XferInc? {
          CreditKeepsInv(s, t);
        } else {
          OwnKeepsInv(s, t);
        }
    }
  }

  lemma {:induction false} RunsKeepInv(s: Lock, es: seq<Event>, s': Lock)
    requires Inv(s) && Runs(s, es, s')
    ensures Inv(s')
    decreases |es|
  {
    hide Inv;
    if es != [] {
      StepKeepsInv(s, es[0]);
      RunsKeepInv(Step(s, es[0]), es[1..], s');
    }
  }

  /** Takes outstanding in all frames of a thread. */
  function Takes(f: Frame, below: seq<Frame>): int
    decreases |below|
  {
    f.takes + (if below == [] then 0 else Takes(below[0], below[1..]))
  }

  function HolderOf(f: Frame, below: seq<Frame>): Frame
    requires Holders(f, below) > 0
    decreases |below|
  {
    if f.holds then f else HolderOf(below[0], below[1..])
  }

  predicate NoPanic(f: Frame, below: seq<Frame>)
    decreases |below|
  {
    !f.pc.Panicked? && (below != [] ==> NoPanic(below[0], below[1..]))
  }

  lemma {:induction false} StackFacts(f: Frame, below: seq<Frame>, recursion: int)
    requires StackFits(f, below, recursion) && Holders(f, below) <= 1
    ensures NoPanic(f, below)
    ensures Holders(f, below) == 0 ==> Takes(f, below) == 0
    ensures Holders(f, below) == 1 ==>
              var h := HolderOf(f, below); h.holds && Takes(f, below) == h.takes && CountFits(h.pc, recursion, h.takes)
    decreases |below|
  {
    if below != [] { StackFacts(below[0], below[1..], recursion); }
  }

  /** In every reachable state, wherever threads were interrupted and whoever handed the lock
      to whom: only the owner has takes outstanding, all in one frame; the recursion count is
      their number, but for that frame's unfinished call; and nobody has hit the recursion
      count panic. */
  lemma {:induction false} LockIsSafe(s0: Lock, es: seq<Event>, s: Lock, t: nat, u: nat)
    requires Fresh(s0) && Runs(s0, es, s) && t in s.threads && u in s.threads
    ensures var th, tu := s.threads[t], s.threads[u];
            && (Takes(th.top, th.below) != 0 ==> s.owner == t)
            && (Takes(th.top, th.below) != 0 && Takes(tu.top, tu.below) != 0 ==> t == u)
            && (s.owner == 0 ==> s.recursion == 0 && Takes(th.top, th.below) == 0)
            && NoPanic(th.top, th.below)
    ensures var th := s.threads[t];
            s.owner == t ==>
              && Holders(th.top, th.below) == 1
              && var h := HolderOf(th.top, th.below);
                 && Takes(th.top, th.below) == h.takes && CountFits(h.pc, s.recursion, h.takes)
                 && (h.pc == Idle ==> s.recursion == h.takes >= 1)
  {
    FreshInv(s0);
    RunsKeepInv(s0, es, s);
    assert ThreadFits(s, t, s.threads[t]) && ThreadFits(s, u, s.threads[u]);
    StackFacts(s.threads[t].top, s.threads[t].below, s.recursion);
    StackFacts(s.threads[u].top, s.threads[u].below, s.recursion);
  }

  /** The owner becomes 0 only when the owner itself finishes releasing its last take. */
  lemma FreedOnlyByLastRelease(s: Lock, e: Event)
    requires Inv(s) && Enabled(s, e) && s.owner != 0 && Step(s, e).owner == 0
    ensures e == Ran(s.owner) && s.threads[s.owner].top.pc == RelCas && s.recursion == 0
    ensures Takes(s.threads[s.owner].top, s.threads[s.owner].below) == 0
  {
    var th := s.threads[s.owner];
    assert ThreadFits(s, e.t, s.threads[e.t]);
    StackFacts(th.top, th.below, s.recursion);
  }

  /** Whoever is switched to owns the lock until it releases it: sch_unlock's Release is
      never the one of a lock that is not held. */
  lemma {:induction false} SwitchedToReleases(s0: Lock, es: seq<Event>, s: Lock, t: nat)
    requires Fresh(s0) && Runs(s0, es, s) && t in s.threads && s.threads[t].top.pc == Resumed
    ensures s.owner == t && s.recursion == s.threads[t].top.takes >= 1
    ensures Run(s, t).threads[t].top.pc == RelCheck && Run(Run(s, t), t).threads[t].top.pc == RelDec
  {
    hide Fits, Runs, Fresh;
    FreshInv(s0);
    RunsKeepInv(s0, es, s);
    assert ThreadFits(s, t, s.threads[t]);
    CreditFrames(s.threads[t].top, s.threads[t].below != [], s.recursion);
  }

  /** A frame that returns finds the lock its thread's own exactly if one of the frames it
      interrupted, at whatever depth, is the one that won it: nothing that ran above them,
      switched out and back or not, took the lock from them or left it to them. */
  lemma {:induction false} ReturnsAsItWas(s0: Lock, es: seq<Event>, s: Lock, t: nat)
    requires Fresh(s0) && Runs(s0, es, s) && CanReturn(s, t)
    ensures var below := s.threads[t].below; s.owner == t <==> Holders(below[0], below[1..]) == 1
  {
    hide Runs, Fresh;
    FreshInv(s0);
    RunsKeepInv(s0, es, s);
    assert ThreadFits(s, t, s.threads[t]);
  }

  /** So the loop test of TakeExclusive, interrupted anywhere, does not mistake a lock that was
      handed to its thread for one it has taken. */
  lemma {:induction false} LoopTestSound(s0: Lock, es: seq<Event>, s: Lock, t: nat)
    requires Fresh(s0) && Runs(s0, es, s) && t in s.threads && s.threads[t].top.pc == TakeLoop
    ensures s.owner == t <==> s.threads[t].top.holds
    ensures Run(s, t).threads[t].top.pc == (if s.threads[t].top.holds then TakePost else TakeCas)
  {
    hide Runs, Fresh;
    FreshInv(s0);
    RunsKeepInv(s0, es, s);
    assert ThreadFits(s, t, s.threads[t]);
  }

  // ---------- Lock counts ----------

  /** The part of its thread's lock count that a frame accounts for. */
  function Due(user: bool, f: Frame): int {
    if user then
      (if f.pc.UserDec? || f.pc.RelCheck? || f.pc.RelDec? || f.pc.RelTest? || f.pc.RelCas? || f.pc.RelCount? then 1 else 0)
    else
      (if f.holds && !Uncounted(f.pc) then 1 else 0) + (if f.pc.RelCount? then 1 else 0)
  }

  /** Positions at which the holder is not yet counted, or no longer. */
  predicate Uncounted(p: Pc) { Entering(p) || p.TakeCount? || p.XferCas? || p.XferInc? || p.Handed? }

  function DueAll(user: bool, f: Frame, below: seq<Frame>): int
    decreases |below|
  {
    Due(user, f) + (if below == [] then 0 else DueAll(user, below[0], below[1..]))
  }

  /** Positions a user-space lock never reaches. */
  predicate KernelOnly(p: Pc) { p.RecCheck? || p.TryRecCheck? || p.RecInc? || LevelAt(p) == Nested }

  /** What each kind of lock allows: a user-space lock is never taken twice. */
  predicate Kind(user: bool, f: Frame) {
    if user then !KernelOnly(f.pc) && f.takes <= (if f.pc.RelDec? || f.pc.RelTest? then 0 else 1)
    else !f.pc.UserDec? && !f.pc.UserInc?
  }

  predicate Kinds(user: bool, f: Frame, below: seq<Frame>)
    decreases |below|
  {
    Kind(user, f) && (below != [] ==> !below[0].pc.Halted? && Kinds(user, below[0], below[1..]))
  }

  /** Halted threads never return, so nothing is said of them. */
  predicate Counted(user: bool, start: int, th: Thread) {
    && Kinds(user, th.top, th.below)
    && (th.top.pc.Halted? || th.count == start + DueAll(user, th.top, th.below))
  }

  predicate CountInv(s: Lock, base: map<nat, int>) {
    forall t :: t in s.threads ==> t in base && Counted(s.user, base[t], s.threads[t])
  }

  /** A step of a frame changes its thread's count by what the frame accounts for. */
  predicate CountMoves(user: bool, f: Frame, count: int, f': Frame, count': int) {
    Kind(user, f') && (f'.pc.Halted? || (!f.pc.Halted? && count' - count == Due(user, f') - Due(user, f)))
  }

  lemma MoveKeepsCount(user: bool, start: int, th: Thread, f': Frame, count': int)
    requires Counted(user, start, th) && CountMoves(user, th.top, th.count, f', count')
    ensures Counted(user, start, th.(top := f', count := count'))
  {}

  lemma UserReleaseCounts(s: Lock, t: nat, f: Frame, nested: bool, count: int)
    requires Running(s, t, f, nested) && s.user && Kind(true, f) && (Releasing(f.pc) || f.pc.RelCas? || f.pc.RelCount?)
    ensures var e := Own(s, t, f, count); CountMoves(true, f, count, e.frame, e.count)
  {}

  lemma UserTakeCounts(s: Lock, t: nat, f: Frame, nested: bool, count: int)
    requires Running(s, t, f, nested) && s.user && Kind(true, f) && !(Releasing(f.pc) || f.pc.RelCas? || f.pc.RelCount?)
    ensures var e := Own(s, t, f, count); CountMoves(true, f, count, e.frame, e.count)
  {}

  lemma UserCounts(s: Lock, t: nat, f: Frame, nested: bool, count: int)
    requires Running(s, t, f, nested) && s.user && Kind(true, f)
    ensures var e := Own(s, t, f, count); CountMoves(true, f, count, e.frame, e.count)
  {
    hide Running, Own, CountMoves;
    if Releasing(f.pc) || f.pc.RelCas? || f.pc.RelCount? {
      UserReleaseCounts(s, t, f, nested, count);
    } else {
      UserTakeCounts(s, t, f, nested, count);
    }
  }

  lemma KernelCounts(s: Lock, t: nat, f: Frame, nested: bool, count: int)
    requires Running(s, t, f, nested) && !s.user && Kind(false, f)
    ensures var e := Own(s, t, f, count); CountMoves(false, f, count, e.frame, e.count)
  {}

  lemma OwnKeepsCounts(s: Lock, base: map<nat, int>, t: nat)
    requires Inv(s) && CountInv(s, base) && t in s.threads
    requires !s.threads[t].top.pc.XferCas? && !s.threads[t].top.pc.XferInc?
    ensures CountInv(Run(s, t), base)
  {
    hide Inv, Own, Running, CountMoves, Counted;
    var th := s.threads[t];
    RunningNow(s, t);
    TopKind(s.user, base[t], th);
    if s.user {
      UserCounts(s, t, th.top, th.below != [], th.count);
    } else {
      KernelCounts(s, t, th.top, th.below != [], th.count);
    }
    var e := Own(s, t, th.top, th.count);
    MoveKeepsCount(s.user, base[t], th, e.frame, e.count);
  }

  lemma TopKind(user: bool, start: int, th: Thread)
    requires Counted(user, start, th)
    ensures Kind(user, th.top)
  {}

  lemma CallCounts(s: Lock, t: nat, op: Op)
    requires Inv(s) && Allowed(s, t, op) && Kind(s.user, s.threads[t].top)
    ensures var f := s.threads[t].top;
            CountMoves(s.user, f, s.threads[t].count, f.(pc := Entry(s.user, op)), s.threads[t].count)
  {
    assert ThreadFits(s, t, s.threads[t]);
  }

  lemma CallKeepsCounts(s: Lock, base: map<nat, int>, t: nat, op: Op)
    requires Inv(s) && CountInv(s, base) && Allowed(s, t, op)
    ensures CountInv(Call(s, t, op), base)
  {
    hide Inv, CountMoves, Counted, Entry;
    var th := s.threads[t];
    TopKind(s.user, base[t], th);
    CallCounts(s, t, op);
    MoveKeepsCount(s.user, base[t], th, th.top.(pc := Entry(s.user, op)), th.count);
  }

  lemma {:induction false} StackKeepsCounts(s: Lock, base: map<nat, int>, e: Event)
    requires Inv(s) && CountInv(s, base) && Enabled(s, e) && (e.Interrupted? || e.Returned?)
    ensures CountInv(Step(s, e), base)
  {
    var th, th' := s.threads[e.t], Step(s, e).threads[e.t];
    assert ThreadFits(s, e.t, th) && Counted(s.user, base[e.t], th);
    if e.Interrupted? {
      assert th'.below[0] == th.top && th'.below[1..] == th.below;
    }
    assert Counted(s.user, base[e.t], th');
  }

  lemma SwapCounts(s: Lock, t: nat, u: nat)
    requires Inv(s) && t in s.threads && u in s.threads && s.threads[t].top.pc == XferCas(u) && !s.user
    ensures var s' := Swap(s, t, u);
            && CountMoves(false, s.threads[t].top, s.threads[t].count, s'.threads[t].top, s'.threads[t].count)
            && CountMoves(false, s.threads[u].top, s.threads[u].count, s'.threads[u].top, s'.threads[u].count)
  {
    assert ThreadFits(s, t, s.threads[t]) && ThreadFits(s, u, s.threads[u]);
  }

  lemma CreditCounts(s: Lock, t: nat, u: nat)
    requires Inv(s) && t in s.threads && u in s.threads && s.threads[t].top.pc == XferInc(u) && !s.user
    ensures var s' := Credit(s, t, u);
            && CountMoves(false, s.threads[t].top, s.threads[t].count, s'.threads[t].top, s'.threads[t].count)
            && CountMoves(false, s.threads[u].top, s.threads[u].count, s'.threads[u].top, s'.threads[u].count)
  {
    assert ThreadFits(s, t, s.threads[t]) && ThreadFits(s, u, s.threads[u]);
  }

  lemma TransferKeepsCounts(s: Lock, base: map<nat, int>, t: nat)
    requires Inv(s) && CountInv(s, base) && t in s.threads
    requires s.threads[t].top.pc.XferCas? || s.threads[t].top.pc.XferInc?
    ensures CountInv(Run(s, t), base)
  {
    hide Inv, Counted, CountMoves;
    var u, s' := s.threads[t].top.pc.to, Run(s, t);
    TargetKnown(s, t);
    KernelNow(s, base, t);
    if s.threads[t].top.pc.XferCas? { SwapCounts(s, t, u); } else { CreditCounts(s, t, u); }
    MoveKeepsCount(s.user, base[t], s.threads[t], s'.threads[t].top, s'.threads[t].count);
    MoveKeepsCount(s.user, base[u], s.threads[u], s'.threads[u].top, s'.threads[u].count);
  }

  lemma KernelNow(s: Lock, base: map<nat, int>, t: nat)
    requires CountInv(s, base) && t in s.threads && (s.threads[t].top.pc.XferCas? || s.threads[t].top.pc.XferInc?)
    ensures !s.user
  {
    assert Counted(s.user, base[t], s.threads[t]);
  }

  lemma PollKeepsCounts(s: Lock, base: map<nat, int>)
    requires CountInv(s, base)
    ensures CountInv(Poll(s), base)
  {}

  lemma {:induction false} RunsKeepCounts(s: Lock, base: map<nat, int>, es: seq<Event>, s': Lock)
    requires Inv(s) && CountInv(s, base) && Runs(s, es, s')
    ensures Inv(s') && CountInv(s', base) && s'.user == s.user
    decreases |es|
  {
    hide Inv, CountInv, Own;
    if es != [] {
      var e := es[0];
      match e {
        case Called(t, op) => CallKeepsCounts(s, base, t, op);
        case Interrupted(_) => StackKeepsCounts(s, base, e);
        case Returned(_) => StackKeepsCounts(s, base, e);
        case Polled(_) => PollKeepsCounts(s, base);
        case Ran(t) =>
          if s.threads[t].top.pc.XferCas? || s.threads[t].top.pc.XferInc? {
            TransferKeepsCounts(s, base, t);
          } else {
            OwnKeepsCounts(s, base, t);
          }
      }
      StepKeepsInv(s, e);
      RunsKeepCounts(Step(s, e), base, es[1..], s');
    }
  }

  function CountsOf(s: Lock): map<nat, int> { map t | t in s.threads :: s.threads[t].count }

  lemma {:induction false} FreshCounts(s: Lock)
    requires Fresh(s)
    ensures CountInv(s, CountsOf(s))
  {
    forall t | t in s.threads ensures Counted(s.user, CountsOf(s)[t], s.threads[t]) {
      if s.threads[t].below != [] {
        assert DueAll(s.user, IDLE, []) == 0 && Kinds(s.user, IDLE, []);
      }
    }
  }

  /** In every reachable state a thread's lock count is what it was before this lock was used,
      plus what its frames account for: between calls, one for owning the lock. */
  lemma {:induction false} KernelLockCounts(s0: Lock, es: seq<Event>, s: Lock, t: nat)
    requires Fresh(s0) && Runs(s0, es, s) && t in s.threads && !s.user && !s.threads[t].top.pc.Halted?
    ensures t in s0.threads
    ensures var th := s.threads[t];
            && th.count == s0.threads[t].count + DueAll(false, th.top, th.below)
            && (th.below == [] && th.top.pc == Idle ==>
                  th.count == s0.threads[t].count + if s.owner == t then 1 else 0)
            && (th.top.pc == Parked && th.below == [IDLE] ==> th.count == s0.threads[t].count)
  {
    FreshInv(s0);
    FreshCounts(s0);
    RunsKeepCounts(s0, CountsOf(s0), es, s);
    assert Counted(false, CountsOf(s0)[t], s.threads[t]) && ThreadFits(s, t, s.threads[t]);
    assert DueAll(false, IDLE, []) == 0;
  }

  /** BT_LOCK, BT_TRY_LOCK and BT_UNLOCK leave the thread's lock count as it was, whether
      or not it now holds the lock, so the check on return to user space never trips. */
  lemma {:induction false} UserLockNeutral(s0: Lock, es: seq<Event>, s: Lock, t: nat)
    requires Fresh(s0) && Runs(s0, es, s) && t in s.threads && s.threads[t].top.pc == Idle && s.user
    ensures t in s0.threads && s.threads[t].count == s0.threads[t].count
  {
    FreshInv(s0);
    FreshCounts(s0);
    RunsKeepCounts(s0, CountsOf(s0), es, s);
    assert Counted(true, CountsOf(s0)[t], s.threads[t]) && ThreadFits(s, t, s.threads[t]);
  }
}
