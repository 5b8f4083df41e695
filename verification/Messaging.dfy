/** Every run of the message manager: any number of threads sending, blocking,
    receiving and acknowledging in any interleaving. A send has three steps, because
    SendMessage checks the header, takes an id and appends under separate holds of
    the lock; in between, a sender may be blocked. An acknowledgement has two, Ack and
    Tell: other threads may come between the removal and the receipts. */
module Messaging {
  import opened Machine
  import opened MessageQueue

  /** A send in flight on some thread: checked, then numbered. */
  datatype Stage = Checked(msg: Msg) | Numbered(msg: Msg)

  datatype State = State(k: Kernel, sends: map<nat, Stage>)

  datatype Event =
    | Check(thread: nat, msg: Msg)
    | TakeId(thread: nat)
    | Append(thread: nat)
    | Get(pid: nat, filter: Filter)
    | Ack(pid: nat, header: Msg)
    | Tell(sender: nat, id: nat)
    | Notify(kind: nat, body: seq<Octet>)
    | Watch(pid: nat, kind: nat)
    | Unwatch(pid: nat, kind: nat)
    | Wipe(pid: nat)
    | Start(pid: nat)
    | Exit(pid: nat)

  ghost predicate Enabled(s: State, e: Event) {
    match e
    case Check(t, m) => t !in s.sends && Accepts(s.k, m)
    case TakeId(t) => t in s.sends && s.sends[t].Checked?
    case Append(t) => t in s.sends && s.sends[t].Numbered? && !MustWait(s.k.messages, s.sends[t].msg)
    case _ => true
  }

  function Step(s: State, e: Event): State
    requires Enabled(s, e)
  {
    match e
    case Check(t, m) => s.(sends := s.sends[t := Checked(m)])
    case TakeId(t) =>
      State(Number(s.k), s.sends[t := Numbered(s.sends[t].msg.(id := s.k.idCounter + 1))])
    case Append(t) => State(Push(s.k, s.sends[t].msg), s.sends - {t})
    case Get(p, f) => s.(k := Receive(s.k, p, f).0)
    case Ack(p, h) => s.(k := Retire(s.k, p, h))
    case Tell(sender, id) => s.(k := SendReceipts(s.k, s.k.subscribers, sender, id))
    case Notify(kind, body) => s.(k := SendEvents(s.k, s.k.subscribers, kind, body))
    case Watch(p, kind) => s.(k := Subscribe(s.k, p, kind))
    case Unwatch(p, kind) => s.(k := Unsubscribe(s.k, p, kind))
    case Wipe(p) => s.(k := Clear(s.k, p))
    case Start(p) => s.(k := s.k.(alive := s.k.alive + {p}))
    case Exit(p) => s.(k := s.k.(alive := s.k.alive - {p}))
  }

  ghost predicate Runs(s: State, es: seq<Event>, s': State)
    decreases |es|
  {
    if es == [] then s' == s
    else Enabled(s, es[0]) && Runs(Step(s, es[0]), es[1..], s')
  }

  const INITIAL := State(Kernel([], 0, [], map[], {}), map[])

  // ---------- The invariant ----------

  predicate InFlight(s: State, t: nat) {
    t in s.sends && s.sends[t].Numbered?
  }

  /** At most one non-reply message per sender and receiver is queued. */
  ghost predicate OnePerPair(q: seq<Msg>) {
    forall i, j :: 0 <= i < j < |q| && q[i].from != 0 ==> !SamePair(q[i], q[j])
  }

  /** Queued ids are distinct and were issued. */
  ghost predicate IdsOk(q: seq<Msg>, issued: nat) {
    && (forall i :: 0 <= i < |q| ==> 1 <= q[i].id <= issued)
    && (forall i, j :: 0 <= i < j < |q| ==> q[i].id != q[j].id)
  }

  /** A process's current id, if still queued, names a message addressed to it. */
  ghost predicate CurrentOk(k: Kernel) {
    forall p, i :: p in k.current && 0 <= i < |k.messages| && k.messages[i].id == k.current[p] ==>
      k.messages[i].to == p
  }

  /** The part of the invariant that speaks of the manager alone. */
  ghost predicate KernelOk(k: Kernel) {
    && OnePerPair(k.messages)
    && IdsOk(k.messages, k.idCounter)
    && CurrentOk(k)
    && (forall p :: p in k.current ==> k.current[p] <= k.idCounter)
  }

  /** An id held by a blocked sender is in range, not queued and nobody's current. */
  ghost predicate Reserved(k: Kernel, id: nat) {
    && 1 <= id <= k.idCounter
    && (forall i :: 0 <= i < |k.messages| ==> k.messages[i].id != id)
    && (forall p :: p in k.current ==> k.current[p] != id)
  }

  ghost predicate Inv(s: State) {
    && KernelOk(s.k)
    && (forall t :: InFlight(s, t) ==> Reserved(s.k, s.sends[t].msg.id))
    && (forall t, u :: InFlight(s, t) && InFlight(s, u) && t != u ==> s.sends[t].msg.id != s.sends[u].msg.id)
  }

  /** What no operation but a numbered Append does: it makes no id that was issued
      and is not queued come back, and it forgets no reservation. */
  ghost predicate Later(k: Kernel, k': Kernel) {
    && KernelOk(k')
    && k.idCounter <= k'.idCounter
    && (forall id :: Reserved(k, id) ==> Reserved(k', id))
    && (forall id: nat :: id <= k.idCounter && !Have(k.messages, id) ==> !Have(k'.messages, id))
  }

  lemma LaterTransitive(a: Kernel, b: Kernel, c: Kernel)
    requires Later(a, b) && Later(b, c)
    ensures Later(a, c)
  {
  }

  lemma HaveIs(q: seq<Msg>, id: nat)
    ensures Have(q, id) <==> exists i :: 0 <= i < |q| && q[i].id == id
  {
  }

  lemma EraseKeepsOk(k: Kernel, i: nat)
    requires KernelOk(k) && i < |k.messages|
    ensures KernelOk(k.(messages := Erase(k.messages, i)))
  {}

  lemma EraseLater(k: Kernel, i: nat)
    requires KernelOk(k) && i < |k.messages|
    ensures Later(k, k.(messages := Erase(k.messages, i)))
  {
    EraseKeepsOk(k, i);
    hide KernelOk;
    var q, q' := k.messages, Erase(k.messages, i);
    assert forall l :: 0 <= l < |q'| ==> q'[l] in q;
    forall id: nat | !Have(q, id)
      ensures !Have(q', id)
    {
      HaveIs(q, id);
      HaveIs(q', id);
    }
  }

  /** Setting a current id to 0 or to a queued message of that process. */
  lemma SetCurrentLater(k: Kernel, p: nat, id: nat)
    requires KernelOk(k)
    requires id == 0 || exists i :: 0 <= i < |k.messages| && k.messages[i].id == id && k.messages[i].to == p
    ensures Later(k, k.(current := k.current[p := id]))
  {
  }

  lemma SendFromKernelLater(k: Kernel, m: Msg)
    requires KernelOk(k) && m.from == 0
    ensures Later(k, SendFromKernel(k, m))
  {
    var k' := SendFromKernel(k, m);
    if Accepts(k, m) && m.to in k.alive {
      var q, q' := k.messages, k'.messages;
      assert q' == q + [m.(id := k.idCounter + 1)];
      forall id: nat | id <= k.idCounter && !Have(q, id)
        ensures !Have(q', id)
      {
        HaveIs(q, id);
        HaveIs(q', id);
      }
    }
  }

  lemma {:induction false} SendReceiptsLater(k: Kernel, subs: seq<(nat, nat)>, sender: nat, id: nat)
    requires KernelOk(k)
    ensures Later(k, SendReceipts(k, subs, sender, id))
    decreases |subs|
  {
    hide KernelOk, Later, SendFromKernel;
    if subs == [] {
      LaterReflexive(k);
    } else if subs[0] == (sender, MESSAGE_RECEIPT) {
      var k1 := SendFromKernel(k, Receipt(sender, id));
      SendFromKernelLater(k, Receipt(sender, id));
      LaterOk(k, k1);
      SendReceiptsLater(k1, subs[1..], sender, id);
      LaterTransitive(k, k1, SendReceipts(k1, subs[1..], sender, id));
    } else {
      SendReceiptsLater(k, subs[1..], sender, id);
    }
  }

  lemma {:induction false} SendEventsLater(k: Kernel, subs: seq<(nat, nat)>, kind: nat, body: seq<Octet>)
    requires KernelOk(k)
    ensures Later(k, SendEvents(k, subs, kind, body))
    decreases |subs|
  {
    hide KernelOk, Later, SendFromKernel;
    if subs == [] {
      LaterReflexive(k);
    } else if subs[0].1 == kind {
      var m := Msg(0, 0, false, 0, 0, subs[0].0, kind, false, Data(body));
      var k1 := SendFromKernel(k, m);
      SendFromKernelLater(k, m);
      LaterOk(k, k1);
      SendEventsLater(k1, subs[1..], kind, body);
      LaterTransitive(k, k1, SendEvents(k1, subs[1..], kind, body));
    } else {
      SendEventsLater(k, subs[1..], kind, body);
    }
  }

  lemma LaterReflexive(k: Kernel)
    requires KernelOk(k)
    ensures Later(k, k)
  {
  }

  lemma LaterOk(k: Kernel, k': Kernel)
    requires Later(k, k')
    ensures KernelOk(k')
  {
  }

  /** Subscriptions and the set of processes play no part. */
  lemma LaterIgnores(k: Kernel, k': Kernel, subs: seq<(nat, nat)>, alive: set<nat>)
    requires Later(k, k')
    ensures Later(k, k'.(subscribers := subs)) && Later(k, k'.(alive := alive))
  {
  }

  lemma ReceiveLater(k: Kernel, p: nat, f: Filter)
    requires KernelOk(k)
    ensures Later(k, Receive(k, p, f).0)
  {
    var i := ReceivedAt(k, p, f);
    if i < |k.messages| {
      ReceivedIsMine(k, p, f);
      SetCurrentLater(k, p, k.messages[i].id);
    }
  }

  /** Whatever a receive returns is addressed to the receiver and passes its filter. */
  lemma ReceivedIsMine(k: Kernel, p: nat, f: Filter)
    requires KernelOk(k)
    ensures var i := ReceivedAt(k, p, f);
            i < |k.messages| ==> k.messages[i].to == p && Matches(k.messages[i], f)
  {}

  lemma RetireLater(k: Kernel, p: nat, h: Msg)
    requires KernelOk(k)
    ensures Later(k, Retire(k, p, h))
  {
    hide KernelOk, Later, Erase;
    LaterReflexive(k);
    var i := Find(k.messages, h.id);
    if i < |k.messages| {
      var k1 := if Current(k, p) == h.id then k.(current := k.current[p := 0]) else k;
      SetCurrentLater(k, p, 0);
      LaterOk(k, k1);
      var k2 := k1.(messages := Erase(k1.messages, i));
      EraseLater(k1, i);
      LaterTransitive(k, k1, k2);
    }
  }

  lemma ClearLater(k: Kernel, p: nat)
    requires KernelOk(k)
    ensures Later(k, Clear(k, p))
  {
    hide KernelOk, Later, Erase, SendReceipts;
    LaterReflexive(k);
    var i := FindParty(k.messages, p);
    if i < |k.messages| {
      var m, e := k.messages[i], k.(messages := Erase(k.messages, i));
      EraseLater(k, i);
      LaterOk(k, e);
      SendReceiptsLater(e, e.subscribers, m.from, m.id);
      var k1 := if m.to == p then SendReceipts(e, e.subscribers, m.from, m.id) else e;
      if m.to == p { LaterTransitive(k, e, k1); }
      LaterIgnores(k, k1, Clear(k, p).subscribers, k1.alive);
    } else {
      LaterIgnores(k, k, Clear(k, p).subscribers, k.alive);
    }
  }

  // ---------- Safety over all runs ----------

  predicate IsSendStep(e: Event) { e.Check? || e.TakeId? || e.Append? }

  /** Every step but those of a send moves only the manager, to a later state. */
  lemma OtherStepLater(s: State, e: Event)
    requires KernelOk(s.k) && Enabled(s, e) && !IsSendStep(e)
    ensures Later(s.k, Step(s, e).k) && Step(s, e).sends == s.sends
  {
    hide KernelOk, Later, Receive, Retire, SendReceipts, SendEvents, Clear;
    LaterReflexive(s.k);
    if e.Get? {
      ReceiveLater(s.k, e.pid, e.filter);
    } else if e.Ack? {
      RetireLater(s.k, e.pid, e.header);
    } else if e.Tell? {
      SendReceiptsLater(s.k, s.k.subscribers, e.sender, e.id);
    } else if e.Notify? {
      SendEventsLater(s.k, s.k.subscribers, e.kind, e.body);
    } else if e.Wipe? {
      ClearLater(s.k, e.pid);
    } else {
      LaterIgnores(s.k, s.k, Step(s, e).k.subscribers, Step(s, e).k.alive);
    }
  }

  lemma TakeIdKeepsInv(s: State, t: nat)
    requires Inv(s) && Enabled(s, TakeId(t))
    ensures Inv(Step(s, TakeId(t)))
  {
  }

  lemma PushKeepsOk(k: Kernel, m: Msg)
    requires KernelOk(k) && Reserved(k, m.id) && !MustWait(k.messages, m)
    ensures KernelOk(Push(k, m))
    ensures forall id :: Reserved(k, id) && id != m.id ==> Reserved(Push(k, m), id)
  {
  }

  lemma AppendKeepsInv(s: State, t: nat)
    requires Inv(s) && Enabled(s, Append(t))
    ensures Inv(Step(s, Append(t)))
  {
    hide KernelOk, Reserved, MustWait, Push;
    PushKeepsOk(s.k, s.sends[t].msg);
    var s' := Step(s, Append(t));
    assert forall u :: InFlight(s', u) ==> InFlight(s, u) && u != t;
  }

  /** Each step of the protocol keeps the invariant. */
  lemma StepKeepsInv(s: State, e: Event)
    requires Inv(s) && Enabled(s, e)
    ensures Inv(Step(s, e))
  {
    if e.TakeId? {
      TakeIdKeepsInv(s, e.thread);
    } else if e.Append? {
      AppendKeepsInv(s, e.thread);
    } else if e.Check? {
      var s' := Step(s, e);
      assert forall u :: InFlight(s', u) ==> InFlight(s, u) && s'.sends[u] == s.sends[u];
    } else {
      OtherStepLater(s, e);
    }
  }

  /** In every reachable state no two non-reply messages of one sender to one receiver
      are queued, and queued and blocked messages have distinct ids in 1..idCounter. */
  lemma {:induction false} RunKeepsInv(s: State, es: seq<Event>, s': State)
    requires Inv(s) && Runs(s, es, s')
    ensures Inv(s')
    decreases |es|
  {
    hide Inv;
    if es != [] {
      StepKeepsInv(s, es[0]);
      RunKeepsInv(Step(s, es[0]), es[1..], s');
    }
  }

  lemma InitialInv()
    ensures Inv(INITIAL)
  {
  }

  // ---------- Ids are never reused ----------

  /** HasMessageBeenProcessed holds of an id that some SendMessage has returned. */
  ghost predicate Processed(s: State, id: nat) {
    && id <= s.k.idCounter
    && !Have(s.k.messages, id)
    && (forall t :: InFlight(s, t) ==> s.sends[t].msg.id != id)
  }

  lemma StepKeepsProcessed(s: State, e: Event, id: nat)
    requires Inv(s) && Enabled(s, e) && Processed(s, id)
    ensures Processed(Step(s, e), id)
  {
    var s' := Step(s, e);
    if IsSendStep(e) {
      HaveIs(s.k.messages, id);
      HaveIs(s'.k.messages, id);
      assert forall u :: InFlight(s', u) && InFlight(s, u) ==> s'.sends[u] == s.sends[u];
    } else {
      OtherStepLater(s, e);
    }
  }

  /** Once a sent message has been processed, it stays processed. */
  lemma {:induction false} ProcessedForever(s: State, es: seq<Event>, s': State, id: nat)
    requires Inv(s) && Runs(s, es, s') && Processed(s, id)
    ensures Processed(s', id)
    decreases |es|
  {
    hide Inv, Processed;
    if es != [] {
      StepKeepsInv(s, es[0]);
      StepKeepsProcessed(s, es[0], id);
      ProcessedForever(Step(s, es[0]), es[1..], s', id);
    }
  }

  // ---------- Receiving and waking up ----------

  /** The predicate a receiver blocks on. */
  ghost predicate Awake(q: seq<Msg>, p: nat, f: Filter) {
    exists i :: 0 <= i < |q| && q[i].to == p && Matches(q[i], f)
  }

  /** A blocked receiver is woken exactly when its receive would succeed. */
  lemma WakesIffReceives(k: Kernel, p: nat, f: Filter)
    requires KernelOk(k)
    ensures Awake(k.messages, p, f) <==> Receive(k, p, f).1.Some?
  {}

  /** Message m is the one process p is working on. */
  ghost predicate Holding(k: Kernel, p: nat, m: Msg) {
    m in k.messages && Current(k, p) == m.id
  }

  ghost predicate HoldsOrGone(k: Kernel, p: nat, m: Msg) {
    Holding(k, p, m) || !Have(k.messages, m.id)
  }

  lemma {:induction false} ReceiptsAppend(k: Kernel, subs: seq<(nat, nat)>, sender: nat, id: nat)
    ensures var k' := SendReceipts(k, subs, sender, id);
            k.messages <= k'.messages && k'.current == k.current
    decreases |subs|
  {
    if subs != [] {
      var k1 := if subs[0] == (sender, MESSAGE_RECEIPT) then SendFromKernel(k, Receipt(sender, id)) else k;
      ReceiptsAppend(k1, subs[1..], sender, id);
    }
  }

  lemma {:induction false} EventsAppend(k: Kernel, subs: seq<(nat, nat)>, kind: nat, body: seq<Octet>)
    ensures var k' := SendEvents(k, subs, kind, body);
            k.messages <= k'.messages && k'.current == k.current
    decreases |subs|
  {
    if subs != [] {
      var m := Msg(0, 0, false, 0, 0, subs[0].0, kind, false, Data(body));
      var k1 := if subs[0].1 == kind then SendFromKernel(k, m) else k;
      EventsAppend(k1, subs[1..], kind, body);
    }
  }

  lemma EraseHolds(k: Kernel, i: nat, p: nat, m: Msg)
    requires KernelOk(k) && i < |k.messages| && Holding(k, p, m)
    ensures HoldsOrGone(k.(messages := Erase(k.messages, i)), p, m)
    ensures k.messages[i].id == m.id ==> !Have(Erase(k.messages, i), m.id)
    ensures k.messages[i].id != m.id ==> m in Erase(k.messages, i)
  {}

  lemma RetireHolds(k: Kernel, p: nat, m: Msg, p': nat, h: Msg)
    requires KernelOk(k) && Holding(k, p, m)
    ensures HoldsOrGone(Retire(k, p', h), p, m)
  {
    var i := Find(k.messages, h.id);
    if i < |k.messages| { EraseHolds(k, i, p, m); }
  }

  lemma ClearHolds(k: Kernel, p: nat, m: Msg, p': nat)
    requires KernelOk(k) && Holding(k, p, m)
    ensures HoldsOrGone(Clear(k, p'), p, m)
  {
    var i := FindParty(k.messages, p');
    if i < |k.messages| {
      EraseHolds(k, i, p, m);
      var e := k.(messages := Erase(k.messages, i));
      EraseLater(k, i);
      ReceiptsAppend(e, e.subscribers, k.messages[i].from, k.messages[i].id);
      SendReceiptsLater(e, e.subscribers, k.messages[i].from, k.messages[i].id);
    }
  }

  /** p itself does not receive with a filter. */
  predicate Unfiltered(e: Event, p: nat) {
    e.Get? && e.pid == p ==> e.filter == ANY_MESSAGE
  }

  lemma StepKeepsHolding(s: State, e: Event, p: nat, m: Msg)
    requires Inv(s) && Enabled(s, e) && Unfiltered(e, p) && Holding(s.k, p, m)
    ensures HoldsOrGone(Step(s, e).k, p, m)
  {
    if e.Ack? {
      RetireHolds(s.k, p, m, e.pid, e.header);
    } else if e.Tell? {
      ReceiptsAppend(s.k, s.k.subscribers, e.sender, e.id);
    } else if e.Wipe? {
      ClearHolds(s.k, p, m, e.pid);
    } else if e.Notify? {
      EventsAppend(s.k, s.k.subscribers, e.kind, e.body);
    } else if e.Get? && e.pid == p {
      ReceiveAgain(s.k, p, m);
    }
  }

  lemma ReceiveAgain(k: Kernel, p: nat, m: Msg)
    requires KernelOk(k) && Holding(k, p, m)
    ensures Receive(k, p, ANY_MESSAGE).1 == Some(m) && Holding(Receive(k, p, ANY_MESSAGE).0, p, m)
  {}

  lemma {:induction false} HeldOrGone(s: State, es: seq<Event>, s': State, p: nat, m: Msg)
    requires Inv(s) && Runs(s, es, s') && (forall i :: 0 <= i < |es| ==> Unfiltered(es[i], p))
    requires Holding(s.k, p, m) || Processed(s, m.id)
    ensures Holding(s'.k, p, m) || Processed(s', m.id)
    decreases |es|
  {
    if Processed(s, m.id) {
      ProcessedForever(s, es, s', m.id);
    } else if es != [] {
      var s1 := Step(s, es[0]);
      StepKeepsInv(s, es[0]);
      StepKeepsHolding(s, es[0], p, m);
      if !Holding(s1.k, p, m) { GoneIsProcessed(s, es[0], m); }
      HeldOrGone(s1, es[1..], s', p, m);
    }
  }

  lemma GoneIsProcessed(s: State, e: Event, m: Msg)
    requires Inv(s) && Enabled(s, e) && m in s.k.messages && !Have(Step(s, e).k.messages, m.id)
    ensures Processed(Step(s, e), m.id)
  {
    var s' := Step(s, e);
    if IsSendStep(e) {
      HaveIs(s'.k.messages, m.id);
    } else {
      OtherStepLater(s, e);
      assert forall t :: InFlight(s', t) ==> InFlight(s, t);
    }
  }

  /** An unfiltered receive keeps returning the same message, whatever everyone else
      does, until that message is removed or the process receives with a filter. */
  lemma {:induction false} ReceiveIsStable(s: State, es: seq<Event>, s': State, p: nat)
    requires Inv(s) && Runs(Step(s, Get(p, ANY_MESSAGE)), es, s')
    requires forall i :: 0 <= i < |es| ==> Unfiltered(es[i], p)
    ensures var m := Receive(s.k, p, ANY_MESSAGE).1;
            m.Some? && Have(s'.k.messages, m.value.id) ==> Receive(s'.k, p, ANY_MESSAGE).1 == m
  {
    var m := Receive(s.k, p, ANY_MESSAGE).1;
    if m.Some? && Have(s'.k.messages, m.value.id) {
      var s1 := Step(s, Get(p, ANY_MESSAGE));
      StepKeepsInv(s, Get(p, ANY_MESSAGE));
      HeldOrGone(s1, es, s', p, m.value);
      RunKeepsInv(s1, es, s');
      ReceiveAgain(s'.k, p, m.value);
    }
  }
}
