/** The kernel's message queue as a value, and what each manager operation does to it
    under the manager's recursive lock. SendMessage and AcknowledgeMessage take that lock
    several times; module Messaging has a step for each. */
module MessageQueue {
  import opened Machine

  datatype Payload = Data(bytes: seq<Octet>) | ReceiptFor(id: nat)

  /** A queued message. Of the flags only Reply matters to the manager. */
  datatype Msg = Msg(
    id: nat, replyId: nat, reply: bool, source: nat, from: nat, to: nat,
    kind: nat, critical: bool, payload: Payload)

  const MESSAGE_RECEIPT: nat := 3

  /** A receive filter: each test is present only when its flag is set. */
  datatype Filter = Filter(
    nonReply: bool, pid: Option<nat>, replyTo: Option<nat>, kind: Option<nat>, source: Option<nat>, invert: bool)

  /** DoesMessageMatch: critical messages match every filter. */
  predicate Matches(m: Msg, f: Filter) {
    m.critical ||
    (var ok := && !(f.nonReply && m.reply)
               && !(f.pid.Some? && m.from != f.pid.value)
               && !(f.replyTo.Some? && m.replyId != f.replyTo.value)
               && !(f.kind.Some? && m.kind != f.kind.value)
               && !(f.source.Some? && m.source != f.source.value);
     if f.invert then !ok else ok)
  }

  /** The manager's state, each process's current message id (0 when none), and the
      set of processes that exist. */
  datatype Kernel = Kernel(
    messages: seq<Msg>, idCounter: nat, subscribers: seq<(nat, nat)>, current: map<nat, nat>, alive: set<nat>)

  function Current(k: Kernel, pid: nat): nat {
    if pid in k.current then k.current[pid] else 0
  }

  // ---------- Scans ----------

  /** First message with the given id; |q| if none. */
  function Find(q: seq<Msg>, id: nat): (i: nat)
    ensures i <= |q|
    ensures i < |q| ==> q[i].id == id
    ensures forall l :: 0 <= l < i ==> q[l].id != id
  {
    if q == [] || q[0].id == id then 0 else 1 + Find(q[1..], id)
  }

  predicate Have(q: seq<Msg>, id: nat) { Find(q, id) < |q| }

  /** First message to pid that passes the filter; |q| if none. */
  function FindFor(q: seq<Msg>, pid: nat, f: Filter): (i: nat)
    ensures i <= |q|
    ensures i < |q| ==> q[i].to == pid && Matches(q[i], f)
    ensures forall l :: 0 <= l < i ==> !(q[l].to == pid && Matches(q[l], f))
  {
    if q == [] || (q[0].to == pid && Matches(q[0], f)) then 0 else 1 + FindFor(q[1..], pid, f)
  }

  const ANY_MESSAGE := Filter(false, None, None, None, None, false)

  /** The two messages would be outstanding between the same sender and receiver. */
  predicate SamePair(a: Msg, b: Msg) {
    !a.reply && !b.reply && a.from == b.from && a.to == b.to
  }

  ghost predicate Conflict(q: seq<Msg>, m: Msg) {
    exists i :: 0 <= i < |q| && SamePair(q[i], m)
  }

  /** AddMessage must wait: only non-reply messages from processes do. */
  ghost predicate MustWait(q: seq<Msg>, m: Msg) {
    m.from != 0 && Conflict(q, m)
  }

  // ---------- Operations ----------

  /** The push at the end of AddMessage: dropped if the receiver is gone. */
  function Push(k: Kernel, m: Msg): Kernel {
    if m.to in k.alive then k.(messages := k.messages + [m]) else k
  }

  /** Whether SendMessage accepts a header, and so numbers it. */
  predicate Accepts(k: Kernel, m: Msg) {
    && (m.to != 0 ==> m.to in k.alive)
    && (m.reply ==>
          var i := Find(k.messages, m.replyId);
          i < |k.messages| && k.messages[i].to == m.from && k.messages[i].from == m.to)
  }

  function Number(k: Kernel): Kernel { k.(idCounter := k.idCounter + 1) }

  /** A whole SendMessage by the kernel itself, which never waits. */
  function SendFromKernel(k: Kernel, m: Msg): Kernel {
    if Accepts(k, m) then Push(Number(k), m.(id := k.idCounter + 1)) else k
  }

  function Erase(q: seq<Msg>, i: nat): seq<Msg>
    requires i < |q|
  {
    q[..i] + q[i + 1..]
  }

  function Receipt(to: nat, id: nat): Msg {
    Msg(0, 0, false, 0, 0, to, MESSAGE_RECEIPT, false, ReceiptFor(id))
  }

  /** SendMessageReciept: one receipt per subscription of the sender, in order. */
  function SendReceipts(k: Kernel, subs: seq<(nat, nat)>, sender: nat, id: nat): Kernel
    decreases |subs|
  {
    if subs == [] then k
    else if subs[0] == (sender, MESSAGE_RECEIPT) then
      SendReceipts(SendFromKernel(k, Receipt(sender, id)), subs[1..], sender, id)
    else SendReceipts(k, subs[1..], sender, id)
  }

  /** SendKernelEvent: one message per subscription to that kind of event. */
  function SendEvents(k: Kernel, subs: seq<(nat, nat)>, kind: nat, body: seq<Octet>): Kernel
    decreases |subs|
  {
    if subs == [] then k
    else if subs[0].1 == kind then
      SendEvents(SendFromKernel(k, Msg(0, 0, false, 0, 0, subs[0].0, kind, false, Data(body))), subs[1..], kind, body)
    else SendEvents(k, subs[1..], kind, body)
  }

  /** RecieveMessage: the current message if still queued (and matching), else the
      first match. */
  function ReceivedAt(k: Kernel, pid: nat, f: Filter): nat {
    var c := Find(k.messages, Current(k, pid));
    if c < |k.messages| && Matches(k.messages[c], f) then c else FindFor(k.messages, pid, f)
  }

  function Receive(k: Kernel, pid: nat, f: Filter): (r: (Kernel, Option<Msg>))
    ensures r.1.Some? <==> ReceivedAt(k, pid, f) < |k.messages|
    ensures r.0 == k.(current := r.0.current)
  {
    var i := ReceivedAt(k, pid, f);
    if i < |k.messages| then (k.(current := k.current[pid := k.messages[i].id]), Some(k.messages[i])) else (k, None)
  }

  /** The first part of AcknowledgeMessage of header h by a process: it is removed. */
  function Retire(k: Kernel, pid: nat, h: Msg): Kernel {
    var i := Find(k.messages, h.id);
    if i == |k.messages| then k else
    var k1 := if Current(k, pid) == h.id then k.(current := k.current[pid := 0]) else k;
    k1.(messages := Erase(k1.messages, i))
  }

  /** AcknowledgeMessage, undisturbed: the receipts follow if it was there. */
  function Acknowledge(k: Kernel, pid: nat, h: Msg): Kernel {
    var k1 := Retire(k, pid, h);
    if Have(k.messages, h.id) then SendReceipts(k1, k1.subscribers, h.from, h.id) else k1
  }

  function FindSub(subs: seq<(nat, nat)>, s: (nat, nat)): (i: nat)
    ensures i <= |subs|
    ensures i < |subs| ==> subs[i] == s
    ensures forall l :: 0 <= l < i ==> subs[l] != s
  {
    if subs == [] || subs[0] == s then 0 else 1 + FindSub(subs[1..], s)
  }

  function Subscribe(k: Kernel, pid: nat, kind: nat): Kernel {
    if FindSub(k.subscribers, (pid, kind)) < |k.subscribers| then k
    else k.(subscribers := k.subscribers + [(pid, kind)])
  }

  function Unsubscribe(k: Kernel, pid: nat, kind: nat): Kernel {
    var i := FindSub(k.subscribers, (pid, kind));
    if i < |k.subscribers| then k.(subscribers := k.subscribers[..i] + k.subscribers[i + 1..]) else k
  }

  /** First message to or from pid; |q| if none. */
  function FindParty(q: seq<Msg>, pid: nat): (i: nat)
    ensures i <= |q|
    ensures i < |q| ==> q[i].to == pid || q[i].from == pid
    ensures forall l :: 0 <= l < i ==> q[l].to != pid && q[l].from != pid
  {
    if q == [] || q[0].to == pid || q[0].from == pid then 0 else 1 + FindParty(q[1..], pid)
  }

  function FindSubscriber(subs: seq<(nat, nat)>, pid: nat): (i: nat)
    ensures i <= |subs|
    ensures i < |subs| ==> subs[i].0 == pid
    ensures forall l :: 0 <= l < i ==> subs[l].0 != pid
  {
    if subs == [] || subs[0].0 == pid then 0 else 1 + FindSubscriber(subs[1..], pid)
  }

  /** ClearMessages as written: its loop flag is reset before the test, so each of
      its two loops removes at most one entry. */
  function Clear(k: Kernel, pid: nat): Kernel {
    var i := FindParty(k.messages, pid);
    var k1 := if i == |k.messages| then k else
              var m := k.messages[i];
              var e := k.(messages := Erase(k.messages, i));
              if m.to == pid then SendReceipts(e, e.subscribers, m.from, m.id) else e;
    var j := FindSubscriber(k1.subscribers, pid);
    if j == |k1.subscribers| then k1
    else k1.(subscribers := k1.subscribers[..j] + k1.subscribers[j + 1..])
  }
}
