/** The message manager with its mutable fields: the scan, push and erase loops of
    the kernel, each proved to compute the operation of module MessageQueue. */
module MessageManager {
  import opened Machine
  import opened MessageQueue
  import opened MessageEffects

  class Manager {
    var messages: seq<Msg>
    var idCounter: nat
    var subscribers: seq<(nat, nat)>
    var current: map<nat, nat>
    var alive: set<nat>

    function K(): Kernel
      reads this
    {
      Kernel(messages, idCounter, subscribers, current, alive)
    }

    constructor ()
      ensures K() == Kernel([], 0, [], map[], {})
    {
      messages, idCounter, subscribers, current, alive := [], 0, [], map[], {};
    }

    /** The loop of GetMessage and HaveMessage. */
    method FindMessage(id: nat) returns (i: nat)
      ensures i == Find(messages, id)
    {
      i := 0;
      while i < |messages| && messages[i].id != id
        invariant i <= |messages|
        invariant forall l :: 0 <= l < i ==> messages[l].id != id
      {
        i := i + 1;
      }
    }

    method NextId() returns (id: nat)
      modifies `idCounter
      ensures K() == Number(old(K())) && id == idCounter
    {
      idCounter := idCounter + 1;
      id := idCounter;
    }

    /** One round of AddMessage: the message is appended (or dropped, if its receiver is
        gone) exactly when it need not wait; otherwise nothing changes. */
    method TryAppend(m: Msg) returns (added: bool)
      modifies `messages
      ensures added <==> !MustWait(old(messages), m)
      ensures K() == if added then Push(old(K()), m) else old(K())
    {
      var wait := false;
      if m.from != 0 && !m.reply {
        var i := 0;
        while i < |messages| && !wait
          invariant i <= |messages|
          invariant wait ==> Conflict(messages, m)
          invariant !wait ==> forall l :: 0 <= l < i ==> !SamePair(messages[l], m)
        {
          wait := SamePair(messages[i], m);
          i := i + 1;
        }
      }
      added := !wait;
      if added && m.to in alive {
        messages := messages + [m];
      }
    }

    /** SendMessage's acceptance test. */
    method Check(m: Msg) returns (ok: bool)
      ensures ok == Accepts(K(), m)
    {
      if m.to != 0 && m.to !in alive {
        return false;
      }
      if m.reply {
        var i := FindMessage(m.replyId);
        if i == |messages| {
          return false;
        }
        if messages[i].to != m.from || messages[i].from != m.to {
          return false;
        }
      }
      ok := true;
    }

    /** A send by the kernel, which never has to wait. */
    method SendAsKernel(m: Msg)
      requires m.from == 0
      modifies this
      ensures K() == SendFromKernel(old(K()), m)
    {
      var ok := Check(m);
      if ok {
        var id := NextId();
        var added := TryAppend(m.(id := id));
      }
    }

    method EraseAt(i: nat)
      requires i < |messages|
      modifies `messages
      ensures messages == Erase(old(messages), i)
    {
      messages := messages[..i] + messages[i + 1..];
    }

    /** One receipt per receipt subscription of the sender, numbered and queued in order. */
    method SendMessageReceipts(sender: nat, id: nat)
      modifies this
      ensures K() == SendReceipts(old(K()), old(subscribers), sender, id)
      ensures K() == Sent(old(K()), Receipts(old(subscribers), sender, id))
    {
      ReceiptsSent(K(), subscribers, sender, id);
      var i := 0;
      ghost var target := SendReceipts(K(), subscribers, sender, id);
      while i < |subscribers|
        invariant i <= |subscribers| && subscribers == old(subscribers)
        invariant SendReceipts(K(), subscribers[i..], sender, id) == target
      {
        assert subscribers[i..][1..] == subscribers[i + 1..];
        if subscribers[i] == (sender, MESSAGE_RECEIPT) {
          SendAsKernel(Receipt(sender, id));
        }
        i := i + 1;
      }
    }

    /** One message per subscription to that kind, numbered and queued in order. */
    method SendKernelEvent(kind: nat, body: seq<Octet>)
      modifies this
      ensures K() == SendEvents(old(K()), old(subscribers), kind, body)
      ensures K() == Sent(old(K()), Events(Interested(old(subscribers), kind), kind, body))
    {
      EventsAre(K(), subscribers, kind, body);
      var i := 0;
      ghost var target := SendEvents(K(), subscribers, kind, body);
      while i < |subscribers|
        invariant i <= |subscribers| && subscribers == old(subscribers)
        invariant SendEvents(K(), subscribers[i..], kind, body) == target
      {
        assert subscribers[i..][1..] == subscribers[i + 1..];
        if subscribers[i].1 == kind {
          SendAsKernel(Msg(0, 0, false, 0, 0, subscribers[i].0, kind, false, Data(body)));
        }
        i := i + 1;
      }
    }

    /** RecieveMessage, with or without a filter. */
    method ReceiveMessage(pid: nat, f: Filter) returns (m: Option<Msg>)
      modifies `current
      ensures (K(), m) == Receive(old(K()), pid, f)
    {
      var cid := if pid in current then current[pid] else 0;
      var i := FindMessage(cid);
      if i == |messages| || !Matches(messages[i], f) {
        i := 0;
        while i < |messages| && !(messages[i].to == pid && Matches(messages[i], f))
          invariant i <= |messages|
          invariant forall l :: 0 <= l < i ==> !(messages[l].to == pid && Matches(messages[l], f))
        {
          i := i + 1;
        }
        assert i == FindFor(messages, pid, f);
      }
      if i < |messages| {
        current := current[pid := messages[i].id];
        m := Some(messages[i]);
      } else {
        m := None;
      }
    }

    method AcknowledgeMessage(pid: nat, h: Msg)
      modifies this
      ensures K() == Acknowledge(old(K()), pid, h)
    {
      var i := FindMessage(h.id);
      if i == |messages| {
        return;
      }
      if (if pid in current then current[pid] else 0) == h.id {
        current := current[pid := 0];
      }
      EraseAt(i);
      SendMessageReceipts(h.from, h.id);
    }

    method FindSubscription(s: (nat, nat)) returns (i: nat)
      ensures i == FindSub(subscribers, s)
    {
      i := 0;
      while i < |subscribers| && subscribers[i] != s
        invariant i <= |subscribers|
        invariant forall l :: 0 <= l < i ==> subscribers[l] != s
      {
        i := i + 1;
      }
    }

    method AddSubscription(pid: nat, kind: nat)
      modifies `subscribers
      ensures K() == Subscribe(old(K()), pid, kind)
    {
      var i := FindSubscription((pid, kind));
      if i == |subscribers| {
        subscribers := subscribers + [(pid, kind)];
      }
    }

    method DropSubscription(pid: nat, kind: nat)
      modifies `subscribers
      ensures K() == Unsubscribe(old(K()), pid, kind)
    {
      var i := FindSubscription((pid, kind));
      if i < |subscribers| {
        subscribers := subscribers[..i] + subscribers[i + 1..];
      }
    }

    method ClearMessages(pid: nat)
      modifies this
      ensures K() == Clear(old(K()), pid)
    {
      hide Erase, SendReceipts;
      var i := FirstOf(pid);
      if i < |messages| {
        var m := messages[i];
        EraseAt(i);
        if m.to == pid {
          SendMessageReceipts(m.from, m.id);
        }
      }
      var j := FirstSubscription(pid);
      if j < |subscribers| {
        subscribers := subscribers[..j] + subscribers[j + 1..];
      }
    }

    /** The first message to or from the process. */
    method FirstOf(pid: nat) returns (i: nat)
      ensures i == FindParty(messages, pid)
    {
      i := 0;
      while i < |messages| && messages[i].to != pid && messages[i].from != pid
        invariant i <= |messages|
        invariant forall l :: 0 <= l < i ==> messages[l].to != pid && messages[l].from != pid
      {
        i := i + 1;
      }
    }

    method FirstSubscription(pid: nat) returns (j: nat)
      ensures j == FindSubscriber(subscribers, pid)
    {
      j := 0;
      while j < |subscribers| && subscribers[j].0 != pid
        invariant j <= |subscribers|
        invariant forall l :: 0 <= l < j ==> subscribers[l].0 != pid
      {
        j := j + 1;
      }
    }
  }
}
