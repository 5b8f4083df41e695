/** What the manager's tests and operations mean, in terms of the fields of messages: which
    messages a filter lets through, when a send is taken or has to wait, what a receive
    returns, what an acknowledgement leaves, and who is subscribed. */
module MessageMeaning {
  import opened Machine
  import opened MessageQueue
  import opened MessageEffects
  import opened Messaging

  // ---------- Filters ----------

  /** Each test alone lets exactly the messages with that field through; critical messages
      pass in any case. */
  lemma OneTest(m: Msg, x: nat)
    ensures Matches(m, Filter(false, None, None, None, None, false))
    ensures Matches(m, Filter(true, None, None, None, None, false)) <==> m.critical || !m.reply
    ensures Matches(m, Filter(false, Some(x), None, None, None, false)) <==> m.critical || m.from == x
    ensures Matches(m, Filter(false, None, Some(x), None, None, false)) <==> m.critical || m.replyId == x
    ensures Matches(m, Filter(false, None, None, Some(x), None, false)) <==> m.critical || m.kind == x
    ensures Matches(m, Filter(false, None, None, None, Some(x), false)) <==> m.critical || m.source == x
  {}

  /** Several let through what each of them does; inversion gives the complement, but for
      critical messages. */
  lemma AllTests(m: Msg, f: Filter)
    ensures m.critical ==> Matches(m, f)
    ensures !f.invert ==>
              (Matches(m, f) <==>
               && Matches(m, Filter(f.nonReply, None, None, None, None, false))
               && Matches(m, Filter(false, f.pid, None, None, None, false))
               && Matches(m, Filter(false, None, f.replyTo, None, None, false))
               && Matches(m, Filter(false, None, None, f.kind, None, false))
               && Matches(m, Filter(false, None, None, None, f.source, false)))
    ensures f.invert ==> (Matches(m, f) <==> m.critical || !Matches(m, f.(invert := false)))
  {}

  // ---------- Receiving ----------

  /** A receive returns the message the process is working on, if that is still queued and
      passes; else the first that is addressed to it and passes; and nothing exactly if there
      is none. What it returns becomes the message the process is working on. */
  lemma ReceiveIs(k: Kernel, p: nat, f: Filter, i: nat)
    requires KernelOk(k) && i < |k.messages| && k.messages[i].to == p && Matches(k.messages[i], f)
    requires (p in k.current && k.current[p] == k.messages[i].id) ||
             (&& (forall l :: 0 <= l < |k.messages| && p in k.current && k.messages[l].id == k.current[p] ==>
                                !Matches(k.messages[l], f))
              && (forall l :: 0 <= l < i ==> k.messages[l].to != p || !Matches(k.messages[l], f)))
    ensures Receive(k, p, f) == (k.(current := k.current[p := k.messages[i].id]), Some(k.messages[i]))
  {
    var c := Find(k.messages, Current(k, p));
    if p in k.current && k.current[p] == k.messages[i].id {
      assert c == i;
    } else {
      assert c < |k.messages| ==> k.messages[c].id == Current(k, p) && p in k.current;
      assert FindFor(k.messages, p, f) == i;
    }
  }

  lemma ReceiveNone(k: Kernel, p: nat, f: Filter)
    requires KernelOk(k) && forall l :: 0 <= l < |k.messages| ==> k.messages[l].to != p || !Matches(k.messages[l], f)
    ensures Receive(k, p, f) == (k, None)
  {
    ReceivedIsMine(k, p, f);
  }

  // ---------- Sending ----------

  /** A send waits exactly if it is no reply and its sender, a process, has another such
      message queued to the same receiver. */
  lemma WaitsIff(q: seq<Msg>, m: Msg)
    ensures MustWait(q, m) <==>
            m.from != 0 && !m.reply && exists i :: 0 <= i < |q| && !q[i].reply && q[i].from == m.from && q[i].to == m.to
  {
    if m.from != 0 && !m.reply && exists i :: 0 <= i < |q| && !q[i].reply && q[i].from == m.from && q[i].to == m.to {
      var i :| 0 <= i < |q| && !q[i].reply && q[i].from == m.from && q[i].to == m.to;
      assert SamePair(q[i], m);
    }
  }

  /** A send is taken exactly if its receiver exists, or is 0, and a reply answers a queued
      message that went the other way. */
  lemma AcceptsIff(k: Kernel, m: Msg)
    requires KernelOk(k)
    ensures Accepts(k, m) <==>
            && (m.to == 0 || m.to in k.alive)
            && (m.reply ==> exists i :: 0 <= i < |k.messages| && k.messages[i].id == m.replyId
                                        && k.messages[i].from == m.to && k.messages[i].to == m.from)
  {
    var i := Find(k.messages, m.replyId);
    if l :| 0 <= l < |k.messages| && k.messages[l].id == m.replyId && k.messages[l].from == m.to && k.messages[l].to == m.from {
      assert i == l;
    }
  }

  /** At every point of every run, of two queued messages that are no replies and come from a
      process, sender or receiver differ; ids differ in any case. */
  lemma {:induction false} PairsApart(es: seq<Event>, s: State, i: nat, j: nat)
    requires Runs(INITIAL, es, s) && i < j < |s.k.messages|
    ensures var a, b := s.k.messages[i], s.k.messages[j];
            && a.id != b.id && 1 <= a.id <= s.k.idCounter
            && (!a.reply && !b.reply && a.from != 0 ==> a.from != b.from || a.to != b.to)
  {
    hide Runs;
    InitialInv();
    RunKeepsInv(INITIAL, es, s);
    assert !SamePair(s.k.messages[i], s.k.messages[j]) || s.k.messages[i].from == 0;
  }

  // ---------- Acknowledging ----------

  /** The acknowledged message goes, and for each receipt subscription of the sender that its
      header names, if that is alive, a receipt comes, with the next ids. */
  lemma {:induction false} AcknowledgeIs(k: Kernel, p: nat, h: Msg, i: nat)
    requires i < |k.messages| && k.messages[i].id == h.id && forall l :: 0 <= l < i ==> k.messages[l].id != h.id
    ensures var k', n := Acknowledge(k, p, h), multiset(k.subscribers)[(h.from, 3)];
            && k'.messages == k.messages[..i] + k.messages[i + 1..] +
                 seq(if h.from in k.alive then n else 0,
                     j requires 0 <= j => Msg(k.idCounter + 1 + j, 0, false, 0, 0, h.from, 3, false, ReceiptFor(h.id)))
            && k'.idCounter == k.idCounter + (if h.from in k.alive || h.from == 0 then n else 0)
            && k'.current == (if (if p in k.current then k.current[p] else 0) == h.id then k.current[p := 0] else k.current)
            && k'.subscribers == k.subscribers && k'.alive == k.alive
  {
    hide SendReceipts;
    assert Find(k.messages, h.id) == i;
    var k1, n := Retire(k, p, h), multiset(k.subscribers)[(h.from, 3)];
    ReceiptsAre(k1, h.from, h.id);
    assert h.from in k.alive ==>
           NumberedFrom(k.idCounter, seq(n, _ => Receipt(h.from, h.id))) ==
           seq(n, j requires 0 <= j => Msg(k.idCounter + 1 + j, 0, false, 0, 0, h.from, 3, false, ReceiptFor(h.id)));
  }

  /** If it is not there, nothing happens. */
  lemma AcknowledgeNothing(k: Kernel, p: nat, h: Msg)
    requires forall l :: 0 <= l < |k.messages| ==> k.messages[l].id != h.id
    ensures Acknowledge(k, p, h) == k
  {}

  /** Undisturbed, it is the two steps of a run: the removal, and the receipts to the sender. */
  lemma AcknowledgeIsTwoSteps(s: State, p: nat, h: Msg)
    ensures s.(k := Acknowledge(s.k, p, h)) ==
            if exists i :: 0 <= i < |s.k.messages| && s.k.messages[i].id == h.id
            then Step(Step(s, Ack(p, h)), Tell(h.from, h.id)) else Step(s, Ack(p, h))
  {
    HaveIs(s.k.messages, h.id);
  }

  // ---------- Subscriptions ----------

  /** Afterwards the process is subscribed, and who was stays so. */
  lemma SubscribeIs(k: Kernel, p: nat, kind: nat, s: (nat, nat))
    ensures s in Subscribe(k, p, kind).subscribers <==> s in k.subscribers || s == (p, kind)
    ensures k.subscribers <= Subscribe(k, p, kind).subscribers
    ensures Subscribe(k, p, kind) == k.(subscribers := Subscribe(k, p, kind).subscribers)
  {}

  ghost predicate Once(subs: seq<(nat, nat)>) {
    forall i, j :: 0 <= i < j < |subs| ==> subs[i] != subs[j]
  }

  /** Afterwards it is not, and everybody else is as before, in the same order. */
  lemma UnsubscribeIs(k: Kernel, p: nat, kind: nat, s: (nat, nat))
    requires Once(k.subscribers)
    ensures s in Unsubscribe(k, p, kind).subscribers <==> s in k.subscribers && s != (p, kind)
    ensures Unsubscribe(k, p, kind) == k.(subscribers := Unsubscribe(k, p, kind).subscribers)
  {
    var subs, i := k.subscribers, FindSub(k.subscribers, (p, kind));
    if i < |subs| {
      assert forall l :: 0 <= l < |subs| && subs[l] != subs[i] ==> subs[l] in subs[..i] || subs[l] in subs[i + 1..];
    }
  }

  /** To subscribe anew and unsubscribe is to do nothing. */
  lemma SubscribeUndone(k: Kernel, p: nat, kind: nat)
    requires (p, kind) !in k.subscribers
    ensures Unsubscribe(Subscribe(k, p, kind), p, kind) == k
  {
    var k1 := Subscribe(k, p, kind);
    assert k1.subscribers[|k.subscribers|] == (p, kind);
    assert FindSub(k1.subscribers, (p, kind)) == |k.subscribers|;
    assert k1.subscribers[..|k.subscribers|] == k.subscribers;
  }

  lemma {:induction false} ReceiptsKeepSubs(k: Kernel, subs: seq<(nat, nat)>, sender: nat, id: nat)
    ensures SendReceipts(k, subs, sender, id).subscribers == k.subscribers
  {
    ReceiptsSent(k, subs, sender, id);
  }

  /** Only these change who is subscribed. */
  lemma StepKeepsSubs(s: State, e: Event)
    requires Enabled(s, e) && !e.Watch? && !e.Unwatch? && !e.Wipe?
    ensures Step(s, e).k.subscribers == s.k.subscribers
  {
    hide SendReceipts, SendEvents, Retire;
    match e {
      case Tell(sender, id) => ReceiptsKeepSubs(s.k, s.k.subscribers, sender, id);
      case Notify(kind, body) => EventsAre(s.k, s.k.subscribers, kind, body);
      case Ack(p, h) => assert Retire(s.k, p, h).subscribers == s.k.subscribers by { RetireKeepsSubs(s.k, p, h); }
      case _ =>
    }
  }

  lemma RetireKeepsSubs(k: Kernel, p: nat, h: Msg)
    ensures Retire(k, p, h).subscribers == k.subscribers
  {}

  lemma OnceErased(subs: seq<(nat, nat)>, i: nat)
    requires Once(subs) && i < |subs|
    ensures Once(subs[..i] + subs[i + 1..])
  {}

  lemma StepKeepsOnce(s: State, e: Event)
    requires Once(s.k.subscribers) && Enabled(s, e)
    ensures Once(Step(s, e).k.subscribers)
  {
    hide SendReceipts, SendEvents, Clear, Retire, Receive;
    var subs := s.k.subscribers;
    if e.Wipe? {
      ClearIs(s.k, e.pid);
      var j := FindSubscriber(subs, e.pid);
      if j < |subs| { OnceErased(subs, j); }
    } else if e.Unwatch? {
      var i := FindSub(subs, (e.pid, e.kind));
      if i < |subs| { OnceErased(subs, i); }
    } else if !e.Watch? {
      hide Step;
      StepKeepsSubs(s, e);
    }
  }

  /** At every point of every run each process is subscribed to each kind at most once. */
  lemma {:induction false} SubscribedOnce(s: State, es: seq<Event>, s': State)
    requires Once(s.k.subscribers) && Runs(s, es, s')
    ensures Once(s'.k.subscribers)
    decreases |es|
  {
    hide Once;
    if es != [] {
      StepKeepsOnce(s, es[0]);
      SubscribedOnce(Step(s, es[0]), es[1..], s');
    }
  }

  /** So an acknowledgement sends one receipt or none: one exactly if the sender lives and is
      subscribed. */
  lemma {:induction false} OneReceipt(es: seq<Event>, s: State, p: nat, h: Msg)
    requires Runs(INITIAL, es, s) && exists i :: 0 <= i < |s.k.messages| && s.k.messages[i].id == h.id
    ensures |Acknowledge(s.k, p, h).messages| ==
            |s.k.messages| - if h.from in s.k.alive && (h.from, 3) in s.k.subscribers then 0 else 1
  {
    hide Runs, Acknowledge;
    SubscribedOnce(INITIAL, es, s);
    OnceCounts(s.k.subscribers, (h.from, 3));
    AcknowledgeIs(s.k, p, h, Find(s.k.messages, h.id));
  }

  lemma {:induction false} OnceCounts(subs: seq<(nat, nat)>, s: (nat, nat))
    requires Once(subs)
    ensures multiset(subs)[s] == if s in subs then 1 else 0
  {
    if subs != [] {
      var n := |subs| - 1;
      assert subs == subs[..n] + [subs[n]];
      OnceCounts(subs[..n], s);
    }
  }

  // ---------- Events ----------

  /** Every message an event queues, field by field. */
  lemma {:induction false} EventFields(k: Kernel, kind: nat, body: seq<Octet>, i: nat)
    requires |k.messages| <= i < |SendEvents(k, k.subscribers, kind, body).messages|
    requires 0 in k.alive || (0, kind) !in k.subscribers
    ensures var m := SendEvents(k, k.subscribers, kind, body).messages[i];
            && m == Msg(k.idCounter + 1 + i - |k.messages|, 0, false, 0, 0, m.to, kind, false, Data(body))
            && (m.to, kind) in k.subscribers && m.to in k.alive
  {
    var to := Interested(k.subscribers, kind);
    var ms := Events(to, kind, body);
    EventsAre(k, k.subscribers, kind, body);
    forall j | 0 <= j < |to| ensures (to[j], kind) in k.subscribers { InterestedIn(k.subscribers, kind, to[j]); }
    SentIs(k, ms);
    var l := Living(k.alive, ms);
    var j := i - |k.messages|;
    LivingIn(k.alive, ms, l[j]);
  }

  lemma {:induction false} InterestedIn(subs: seq<(nat, nat)>, kind: nat, p: nat)
    ensures p in Interested(subs, kind) <==> (p, kind) in subs
  {
    if subs != [] {
      InterestedIn(subs[1..], kind, p);
      assert subs == [subs[0]] + subs[1..];
    }
  }

  lemma {:induction false} LivingIn(alive: set<nat>, ms: seq<Msg>, m: Msg)
    ensures m in Living(alive, ms) <==> m in ms && m.to in alive
  {
    if ms != [] {
      LivingIn(alive, ms[1..], m);
      assert ms == [ms[0]] + ms[1..];
    }
  }
}
