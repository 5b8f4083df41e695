/** What the manager's loops over subscribers and messages come to: which messages a
    receipt or an event queues, and what ClearMessages removes and leaves. */
module MessageEffects {
  import opened Machine
  import opened MessageQueue

  // ---------- Messages from the kernel ----------

  /** The headers a loop over the subscribers sends, in subscription order. */
  function Receipts(subs: seq<(nat, nat)>, sender: nat, id: nat): seq<Msg> {
    if subs == [] then []
    else (if subs[0] == (sender, MESSAGE_RECEIPT) then [Receipt(sender, id)] else []) + Receipts(subs[1..], sender, id)
  }

  function EventMsg(to: nat, kind: nat, body: seq<Octet>): Msg {
    Msg(0, 0, false, 0, 0, to, kind, false, Data(body))
  }

  /** Who is told of an event of some kind. */
  function Interested(subs: seq<(nat, nat)>, kind: nat): seq<nat> {
    if subs == [] then [] else (if subs[0].1 == kind then [subs[0].0] else []) + Interested(subs[1..], kind)
  }

  function Events(to: seq<nat>, kind: nat, body: seq<Octet>): seq<Msg> {
    seq(|to|, i requires 0 <= i < |to| => EventMsg(to[i], kind, body))
  }

  /** Those that SendMessage accepts: to a process that exists, or to 0. */
  function Accepted(alive: set<nat>, ms: seq<Msg>): seq<Msg> {
    if ms == [] then []
    else (if ms[0].to == 0 || ms[0].to in alive then [ms[0]] else []) + Accepted(alive, ms[1..])
  }

  function Living(alive: set<nat>, ms: seq<Msg>): seq<Msg> {
    if ms == [] then [] else (if ms[0].to in alive then [ms[0]] else []) + Living(alive, ms[1..])
  }

  function NumberedFrom(n: nat, ms: seq<Msg>): seq<Msg> {
    seq(|ms|, i requires 0 <= i < |ms| => ms[i].(id := n + 1 + i))
  }

  /** The kernel with those messages sent: numbered consecutively and appended in order. */
  function Sent(k: Kernel, ms: seq<Msg>): Kernel {
    var accepted := Accepted(k.alive, ms);
    k.(messages := k.messages + Living(k.alive, NumberedFrom(k.idCounter, accepted)),
       idCounter := k.idCounter + |accepted|)
  }

  lemma {:induction false} LivingConcat(alive: set<nat>, a: seq<Msg>, b: seq<Msg>)
    ensures Living(alive, a + b) == Living(alive, a) + Living(alive, b)
  {
    if a == [] {
      assert a + b == b;
    } else {
      var first := if a[0].to in alive then [a[0]] else [];
      assert (a + b)[0] == a[0] && (a + b)[1..] == a[1..] + b;
      LivingConcat(alive, a[1..], b);
      Assoc(first, Living(alive, a[1..]), Living(alive, b));
    }
  }

  lemma {:induction false} Assoc(a: seq<Msg>, b: seq<Msg>, c: seq<Msg>)
    ensures a + (b + c) == a + b + c
  {}

  /** Sending one more first. */
  lemma {:induction false} SentFirst(k: Kernel, m: Msg, ms: seq<Msg>)
    requires !m.reply
    ensures Sent(SendFromKernel(k, m), ms) == Sent(k, [m] + ms)
  {
    var k1 := SendFromKernel(k, m);
    assert ([m] + ms)[1..] == ms;
    if Accepts(k, m) {
      var rest := Accepted(k.alive, ms);
      var first := [m.(id := k.idCounter + 1)];
      assert NumberedFrom(k.idCounter, [m] + rest) == first + NumberedFrom(k.idCounter + 1, rest);
      LivingConcat(k.alive, first, NumberedFrom(k.idCounter + 1, rest));
      assert first[1..] == [];
      assert k1.messages == k.messages + Living(k.alive, first);
      var l := Living(k.alive, NumberedFrom(k.idCounter + 1, rest));
      assert k.messages + Living(k.alive, first) + l == k.messages + (Living(k.alive, first) + l);
      assert Accepted(k.alive, [m] + ms) == [m] + rest;
    } else {
      assert Accepted(k.alive, [m] + ms) == Accepted(k.alive, ms);
    }
  }

  lemma {:induction false} ReceiptsSent(k: Kernel, subs: seq<(nat, nat)>, sender: nat, id: nat)
    ensures SendReceipts(k, subs, sender, id) == Sent(k, Receipts(subs, sender, id))
    decreases |subs|
  {
    hide Sent, SendFromKernel;
    if subs == [] {
      SentNone(k);
    } else if subs[0] == (sender, MESSAGE_RECEIPT) {
      ReceiptsSent(SendFromKernel(k, Receipt(sender, id)), subs[1..], sender, id);
      SentFirst(k, Receipt(sender, id), Receipts(subs[1..], sender, id));
    } else {
      ReceiptsSent(k, subs[1..], sender, id);
      assert Receipts(subs, sender, id) == Receipts(subs[1..], sender, id);
    }
  }

  lemma {:induction false} SentNone(k: Kernel)
    ensures Sent(k, []) == k
  {}

  /** One receipt per receipt subscription of the sender, if it lives, with the next ids. */
  lemma {:induction false} ReceiptsAre(k: Kernel, sender: nat, id: nat)
    ensures var n := multiset(k.subscribers)[(sender, MESSAGE_RECEIPT)];
            var k' := SendReceipts(k, k.subscribers, sender, id);
            && (sender in k.alive ==>
                  k' == k.(messages := k.messages + NumberedFrom(k.idCounter, seq(n, _ => Receipt(sender, id))),
                           idCounter := k.idCounter + n))
            && (sender !in k.alive && sender != 0 ==> k' == k)
            && (sender !in k.alive && sender == 0 ==> k' == k.(idCounter := k.idCounter + n))
  {
    var n := multiset(k.subscribers)[(sender, MESSAGE_RECEIPT)];
    ReceiptsSent(k, k.subscribers, sender, id);
    ReceiptsCount(k.subscribers, sender, id);
    var ms := Receipts(k.subscribers, sender, id);
    AllAccepted(k.alive, ms, sender);
    AllLiving(k.alive, NumberedFrom(k.idCounter, Accepted(k.alive, ms)), sender);
  }

  lemma {:induction false} ReceiptsCount(subs: seq<(nat, nat)>, sender: nat, id: nat)
    ensures Receipts(subs, sender, id) == seq(multiset(subs)[(sender, MESSAGE_RECEIPT)], _ => Receipt(sender, id))
  {
    if subs != [] {
      ReceiptsCount(subs[1..], sender, id);
      assert subs == [subs[0]] + subs[1..];
    }
  }

  lemma {:induction false} AllAccepted(alive: set<nat>, ms: seq<Msg>, to: nat)
    requires forall i :: 0 <= i < |ms| ==> ms[i].to == to
    ensures Accepted(alive, ms) == if to == 0 || to in alive then ms else []
  {
    if ms != [] { AllAccepted(alive, ms[1..], to); }
  }

  lemma {:induction false} AllLiving(alive: set<nat>, ms: seq<Msg>, to: nat)
    requires forall i :: 0 <= i < |ms| ==> ms[i].to == to
    ensures Living(alive, ms) == if to in alive then ms else []
  {
    if ms != [] { AllLiving(alive, ms[1..], to); }
  }

  /** An event goes to every subscriber of its kind that lives, in subscription order and
      with consecutive ids. */
  lemma {:induction false} EventsAre(k: Kernel, subs: seq<(nat, nat)>, kind: nat, body: seq<Octet>)
    ensures SendEvents(k, subs, kind, body) == Sent(k, Events(Interested(subs, kind), kind, body))
    decreases |subs|
  {
    hide Sent, SendFromKernel;
    if subs == [] {
      SentNone(k);
      assert Events([], kind, body) == [];
    } else if subs[0].1 == kind {
      var m, to := EventMsg(subs[0].0, kind, body), Interested(subs[1..], kind);
      EventsAre(SendFromKernel(k, m), subs[1..], kind, body);
      SentFirst(k, m, Events(to, kind, body));
      assert Events([subs[0].0] + to, kind, body) == [m] + Events(to, kind, body);
    } else {
      EventsAre(k, subs[1..], kind, body);
      assert Interested(subs, kind) == Interested(subs[1..], kind);
    }
  }

  /** Unless a process 0 that does not exist subscribes, the messages queued are exactly
      those to the living, numbered from the counter on. */
  lemma {:induction false} SentIs(k: Kernel, ms: seq<Msg>)
    requires 0 in k.alive || forall i :: 0 <= i < |ms| ==> ms[i].to != 0
    ensures Sent(k, ms).messages == k.messages + NumberedFrom(k.idCounter, Living(k.alive, ms))
    ensures Sent(k, ms).idCounter == k.idCounter + |Living(k.alive, ms)|
  {
    AcceptedLive(k.alive, ms);
    LivingStays(k.alive, NumberedFrom(k.idCounter, Living(k.alive, ms)));
  }

  lemma {:induction false} AcceptedLive(alive: set<nat>, ms: seq<Msg>)
    requires 0 in alive || forall i :: 0 <= i < |ms| ==> ms[i].to != 0
    ensures Accepted(alive, ms) == Living(alive, ms)
    ensures forall i :: 0 <= i < |Living(alive, ms)| ==> Living(alive, ms)[i].to in alive
  {
    if ms != [] { AcceptedLive(alive, ms[1..]); }
  }

  lemma {:induction false} LivingStays(alive: set<nat>, ms: seq<Msg>)
    requires forall i :: 0 <= i < |ms| ==> ms[i].to in alive
    ensures Living(alive, ms) == ms
  {
    if ms != [] { LivingStays(alive, ms[1..]); }
  }

  // ---------- ClearMessages ----------

  predicate Party(m: Msg, pid: nat) { m.to == pid || m.from == pid }

  /** The receipts for a message, as they are queued. */
  function Told(k: Kernel, m: Msg): seq<Msg> {
    if m.from !in k.alive then []
    else NumberedFrom(k.idCounter, seq(multiset(k.subscribers)[(m.from, MESSAGE_RECEIPT)], _ => Receipt(m.from, m.id)))
  }

  /** What Clear removes: the first message of the process, for which receipts are then
      queued if it was addressed to the process, and its first subscription; no more. */
  lemma {:induction false} ClearIs(k: Kernel, pid: nat)
    ensures var k', i, j := Clear(k, pid), FindParty(k.messages, pid), FindSubscriber(k.subscribers, pid);
            && k'.messages == (if i == |k.messages| then k.messages
                               else Erase(k.messages, i) + if k.messages[i].to == pid then Told(k, k.messages[i]) else [])
            && k'.subscribers == (if j == |k.subscribers| then k.subscribers
                                  else k.subscribers[..j] + k.subscribers[j + 1..])
            && k'.current == k.current && k'.alive == k.alive
  {
    var i := FindParty(k.messages, pid);
    if i < |k.messages| {
      var m, e := k.messages[i], k.(messages := Erase(k.messages, i));
      ReceiptsAre(e, m.from, m.id);
    }
  }

  /** The receipt for a message goes to, or comes from, the process itself. */
  predicate Echoes(k: Kernel, m: Msg, pid: nat) {
    && m.to == pid && (m.from == pid || pid == 0)
    && m.from in k.alive && (m.from, MESSAGE_RECEIPT) in k.subscribers
  }

  /** Afterwards no message to or from the process is queued exactly if there was at most one
      before, and clearing that one does not queue a receipt that is such a message. */
  lemma {:induction false} ClearsAllIff(k: Kernel, pid: nat)
    ensures var q, i := k.messages, FindParty(k.messages, pid);
            (forall m :: m in Clear(k, pid).messages ==> !Party(m, pid)) <==>
            i == |q| || ((forall l :: i < l < |q| ==> !Party(q[l], pid)) && !Echoes(k, q[i], pid))
  {
    hide Clear, FindParty, FindSubscriber, Told, Echoes;
    var q, i, q' := k.messages, FindParty(k.messages, pid), Clear(k, pid).messages;
    ClearIs(k, pid);
    if i < |q| {
      var told := if q[i].to == pid then Told(k, q[i]) else [];
      ToldEchoes(k, q[i], pid);
      assert forall m :: m in q' <==> m in q[..i] || m in q[i + 1..] || m in told;
      assert forall l :: i < l < |q| ==> q[i + 1..][l - i - 1] == q[l];
    }
  }

  lemma {:induction false} ToldEchoes(k: Kernel, m: Msg, pid: nat)
    requires Party(m, pid)
    ensures (exists r :: r in (if m.to == pid then Told(k, m) else []) && Party(r, pid)) <==> Echoes(k, m, pid)
  {
    var told := if m.to == pid then Told(k, m) else [];
    if Echoes(k, m, pid) {
      assert told[0].to == m.from && told[0].from == 0;
      assert told[0] in told && Party(told[0], pid);
    }
  }

  /** Afterwards the process has no subscription exactly if it had at most one. */
  lemma {:induction false} UnsubscribesAllIff(k: Kernel, pid: nat)
    ensures var subs, j := k.subscribers, FindSubscriber(k.subscribers, pid);
            (forall s :: s in Clear(k, pid).subscribers ==> s.0 != pid) <==>
            forall l :: j < l < |subs| ==> subs[l].0 != pid
  {
    hide Clear, FindSubscriber, FindParty, Erase, Told;
    var subs, j, subs' := k.subscribers, FindSubscriber(k.subscribers, pid), Clear(k, pid).subscribers;
    ClearIs(k, pid);
    if j < |subs| {
      assert subs' == subs[..j] + subs[j + 1..];
      assert forall s :: s in subs' <==> s in subs[..j] || s in subs[j + 1..];
      assert forall l :: j < l < |subs| ==> subs[j + 1..][l - j - 1] == subs[l];
    }
  }

  /** Two messages to process 1: one stays. */
  lemma {:induction false} ClearLeavesOne()
    ensures var first, second := EventMsg(1, 0, []).(id := 1), EventMsg(1, 0, []).(id := 2);
            Clear(Kernel([first, second], 2, [], map[], {1}), 1).messages == [second]
  {
    var first, second := EventMsg(1, 0, []).(id := 1), EventMsg(1, 0, []).(id := 2);
    ClearIs(Kernel([first, second], 2, [], map[], {1}), 1);
  }

  /** A message to oneself, with a receipt subscription: a receipt takes its place. */
  lemma {:induction false} ClearEchoes()
    ensures var own := Msg(1, 0, false, 0, 1, 1, 0, false, Data([]));
            var k := Kernel([own], 1, [(1, MESSAGE_RECEIPT)], map[], {1});
            Clear(k, 1).messages == [Receipt(1, 1).(id := 2)]
  {
    var own := Msg(1, 0, false, 0, 1, 1, 0, false, Data([]));
    ClearIs(Kernel([own], 1, [(1, MESSAGE_RECEIPT)], map[], {1}), 1);
  }
}
