/** The whole system: any number of clients calling one procedure of one server, over
    the kernel's message manager. Each kernel operation is a step of module Messaging
    on the thread of the process that makes it. A client receives with the filter for the
    reply it waits for. The server takes any message addressed to it, so every receive
    discipline is covered. */
module Rpc {
  import opened Machine
  import opened MessageQueue
  import opened Serialization
  import opened RpcLocal
  import opened RpcSafety
  import Messaging

  /** buffers and remains are the server's two maps; owner records, for every reply id
      the server took, which client it was for; log is every call made. */
  datatype Sys = Sys(
    m: Messaging.State, clients: map<nat, Client>, server: Server,
    buffers: map<nat, Octets>, remains: map<nat, Octets>, owner: map<nat, nat>,
    log: seq<(nat, Call)>, done: map<nat, seq<Call>>)

  // ---------- One client's view ----------

  function Between(q: seq<Msg>, a: nat, b: nat): seq<Msg> {
    if q == [] then [] else
    (if q[0].from == a && q[0].to == b then [q[0]] else []) + Between(q[1..], a, b)
  }

  function CallsOf(log: seq<(nat, Call)>, c: nat): seq<Call> {
    if log == [] then [] else
    CallsOf(log[..|log| - 1], c) + (if log[|log| - 1].0 == c then [log[|log| - 1].1] else [])
  }

  predicate Busy(s: Server) { s.Handling? || Past(s) }

  /** The server as client c sees it: ready, unless it is working on a message of c. */
  function ServerFor(s: Server, c: nat): Server {
    if s.Failed? || (Busy(s) && s.msg.from == c) then s else Ready
  }

  function SendOf(sends: map<nat, Messaging.Stage>, t: nat): Option<Messaging.Stage> {
    if t in sends then Some(sends[t]) else None
  }

  function Owned(remains: map<nat, Octets>, owner: map<nat, nat>, c: nat): map<nat, Octets> {
    map id | id in remains && id in owner && owner[id] == c :: remains[id]
  }

  function BufferOf(buffers: map<nat, Octets>, c: nat): Option<Octets> {
    if c in buffers then Some(buffers[c]) else None
  }

  function Project(cfg: Config, s: Sys, c: nat): View
    requires c in s.clients && c in s.done
  {
    View(s.clients[c], SendOf(s.m.sends, c),
         Between(s.m.k.messages, c, cfg.server), Between(s.m.k.messages, cfg.server, c),
         ServerFor(s.server, c), if Busy(ServerFor(s.server, c)) then SendOf(s.m.sends, cfg.server) else None,
         BufferOf(s.buffers, c), Owned(s.remains, s.owner, c), CallsOf(s.log, c), s.done[c])
  }

  // ---------- Steps ----------

  ghost predicate Can(cfg: Config, s: Sys, c: nat, a: Act) {
    && c in s.clients && c in s.done
    && var v := Project(cfg, s, c);
       && RpcLocal.Can(cfg, v, a)
       && match a
          case ClientCheck(ok) => ok == Accepts(s.m.k, Outgoing(cfg, c, v))
          case ServerCheck(ok) => ok == Accepts(s.m.k, ReplyMsg(cfg, v.server.msg, v.server.data))
          case ClientTake(id) => id == s.m.k.idCounter + 1
          case ServerTake(id) => id == s.m.k.idCounter + 1
          case ClientAppend => Messaging.Enabled(s.m, Messaging.Append(c))
          case ClientReceive(i) => Receive(s.m.k, c, ReplyTo(v.client.id)).1 == Some(v.toClient[i])
          case ServerReceive(_) => s.server.Ready?
          case _ => true
  }

  /** Thread t's next kernel operation, if it is enabled. */
  ghost function Kernel(s: Sys, e: Messaging.Event): Messaging.State {
    if Messaging.Enabled(s.m, e) then Messaging.Step(s.m, e) else s.m
  }

  /** The manager once process p has received msg, with whatever filter. */
  function WorkingOn(m: Messaging.State, p: nat, msg: Msg): Messaging.State {
    m.(k := m.k.(current := m.k.current[p := msg.id]))
  }

  /** HandleMessage on the server's own state. */
  ghost function HandleMessage(cfg: Config, s: Sys, result: Value): Sys
    requires s.server.Handling?
  {
    var m := s.server.msg;
    if m.kind == cfg.kind then
      var b := (if m.from in s.buffers then s.buffers[m.from] else []) + Content(m);
      if m.source != 0 then s.(buffers := s.buffers[m.from := b], server := Finishing(m)) else
      var ps := DeserializeAll(cfg.params, b);
      if ps.None? then s.(server := Failed) else
      s.(buffers := s.buffers - {m.from}, log := s.log + [(m.from, (ps.value.0, result))],
         server := Replying(m, Serialize(result)))
    else if m.kind == CONTINUE && m.replyId in s.remains then
      s.(remains := s.remains - {m.replyId}, server := Replying(m, s.remains[m.replyId]))
    else s.(server := Finishing(m))
  }

  ghost function Do(cfg: Config, s: Sys, c: nat, a: Act): Sys
    requires Can(cfg, s, c, a)
  {
    var v := Project(cfg, s, c);
    match a
    case Begin(args) => s.(clients := s.clients[c := Sending(args, 0)])
    case ClientCheck(ok) =>
      if ok then s.(m := Kernel(s, Messaging.Check(c, Outgoing(cfg, c, v)))) else s.(clients := s.clients[c := Broken])
    case ClientTake(_) => s.(m := Kernel(s, Messaging.TakeId(c)))
    case ClientAppend =>
      s.(m := Kernel(s, Messaging.Append(c)), clients := s.clients[c := AfterSend(v.client, v.clientSend.value.msg.id)])
    case ClientReceive(i) =>
      s.(m := Kernel(s, Messaging.Get(c, ReplyTo(v.client.id))), clients := s.clients[c := RpcLocal.Do(cfg, c, v, a).client])
    case ClientAck =>
      s.(m := Kernel(s, Messaging.Ack(c, v.client.reply)),
         clients := s.clients[c := AfterAck(cfg, v).client], done := s.done[c := AfterAck(cfg, v).done])
    case ServerReceive(i) => s.(m := WorkingOn(s.m, cfg.server, v.toServer[i]), server := Handling(v.toServer[i]))
    case ServerHandle(r) => HandleMessage(cfg, s, r)
    case ServerCheck(ok) =>
      if ok then s.(m := Kernel(s, Messaging.Check(cfg.server, ReplyMsg(cfg, s.server.msg, s.server.data))))
      else s.(server := Failed)
    case ServerTake(id) => s.(m := Kernel(s, Messaging.TakeId(cfg.server)), owner := s.owner[id := c])
    case ServerAppend =>
      s.(m := Kernel(s, Messaging.Append(cfg.server)),
         server := Replied(s.server.msg, v.serverSend.value.msg.id, Tail(s.server.data)))
    case ServerStore =>
      s.(remains := if s.server.rest.Some? then s.remains[s.server.id := s.server.rest.value] else s.remains,
         server := Finishing(s.server.msg))
    case ServerAck => s.(m := Kernel(s, Messaging.Ack(cfg.server, s.server.msg)), server := Ready)
  }

  // ---------- The invariant ----------

  /** Messages go between the server and clients. */
  ghost predicate Traffic(server: nat, clients: set<nat>, q: seq<Msg>) {
    forall i :: 0 <= i < |q| ==> (q[i].to in clients ==> q[i].from == server) && (q[i].to == server ==> q[i].from in clients)
  }

  ghost predicate Shape(cfg: Config, s: Sys) {
    && Messaging.Inv(s.m) && s.m.k.subscribers == []
    && cfg.server !in s.clients && 0 !in s.clients && s.clients.Keys == s.done.Keys
    && s.clients.Keys + {cfg.server} <= s.m.k.alive
    && s.m.sends.Keys <= s.clients.Keys + {cfg.server}
    && Traffic(cfg.server, s.clients.Keys, s.m.k.messages)
    && (cfg.server in s.m.sends ==> s.server.Replying?)
    && (Busy(s.server) ==> s.server.msg.from in s.clients)
    && s.remains.Keys <= s.owner.Keys
    && (forall id :: id in s.owner ==> id <= s.m.k.idCounter)
    && (s.server.Replied? ==> s.server.id in s.owner && s.owner[s.server.id] == s.server.msg.from)
    && (cfg.server in s.m.sends && s.m.sends[cfg.server].Numbered? ==>
          var id := s.m.sends[cfg.server].msg.id; id in s.owner && s.owner[id] == s.server.msg.from)
  }

  ghost predicate Inv(cfg: Config, s: Sys) {
    && ConfigOk(cfg) && Shape(cfg, s)
    && forall c :: c in s.clients ==> ViewOk(cfg, c, Project(cfg, s, c))
  }

  // ---------- Queues between two processes ----------

  lemma {:induction false} BetweenAppend(q: seq<Msg>, m: Msg, a: nat, b: nat)
    ensures Between(q + [m], a, b) == Between(q, a, b) + (if m.from == a && m.to == b then [m] else [])
  {
    BetweenConcat(q, [m], a, b);
    assert [m][1..] == [];
  }

  lemma {:induction false} BetweenConcat(q: seq<Msg>, r: seq<Msg>, a: nat, b: nat)
    ensures Between(q + r, a, b) == Between(q, a, b) + Between(r, a, b)
  {
    if q == [] {
      assert q + r == r;
    } else {
      assert (q + r)[1..] == q[1..] + r;
      BetweenConcat(q[1..], r, a, b);
    }
  }

  lemma {:induction false} BetweenIn(q: seq<Msg>, a: nat, b: nat, m: Msg)
    ensures m in Between(q, a, b) <==> m in q && m.from == a && m.to == b
  {
    if q != [] {
      BetweenIn(q[1..], a, b, m);
      assert q == [q[0]] + q[1..];
    }
  }

  /** Removing the only message of some id, seen from one pair of processes. */
  lemma {:induction false} BetweenErase(q: seq<Msg>, i: nat, a: nat, b: nat)
    requires i < |q| && (forall k, l :: 0 <= k < l < |q| ==> q[k].id != q[l].id)
    ensures Between(Erase(q, i), a, b) ==
            if q[i].from == a && q[i].to == b then Drop(Between(q, a, b), q[i].id) else Between(q, a, b)
  {
    var m := q[i];
    assert q == q[..i] + ([m] + q[i + 1..]);
    BetweenConcat(q[..i], [m] + q[i + 1..], a, b);
    BetweenConcat([m], q[i + 1..], a, b);
    BetweenConcat(q[..i], q[i + 1..], a, b);
    assert Between([m], a, b) == if m.from == a && m.to == b then [m] else [];
    if m.from == a && m.to == b {
      var x, y := Between(q[..i], a, b), Between(q[i + 1..], a, b);
      forall k | 0 <= k < |x|
        ensures x[k].id != m.id
      {
        BetweenIn(q[..i], a, b, x[k]);
      }
      DropMiddle(x, m, y);
    }
  }

  lemma DropMiddle(x: seq<Msg>, m: Msg, y: seq<Msg>)
    requires forall k :: 0 <= k < |x| ==> x[k].id != m.id
    ensures Drop(x + ([m] + y), m.id) == x + y
  {
    var q := x + ([m] + y);
    assert q[|x|] == m;
    assert Find(q, m.id) == |x|;
    assert Erase(q, |x|) == x + y;
  }

  // ---------- The kernel accepts every reply ----------

  lemma QueuedFound(k: MessageQueue.Kernel, m: Msg)
    requires Messaging.KernelOk(k) && m in k.messages
    ensures var i := Find(k.messages, m.id); i < |k.messages| && k.messages[i] == m
  {}

  /** Every send a client makes passes the kernel's check: for a Continue, the reply it
      answers is still queued, with to and from mirrored. */
  lemma ClientAccepted(cfg: Config, s: Sys, c: nat, ok: bool)
    requires Inv(cfg, s) && Can(cfg, s, c, ClientCheck(ok))
    ensures ok
  {
    var v := Project(cfg, s, c);
    if v.client.Got? {
      ContinueAccepted(cfg, c, v);
      BetweenIn(s.m.k.messages, cfg.server, c, v.client.reply);
      QueuedFound(s.m.k, v.client.reply);
    }
  }

  /** So does every reply of the server. */
  lemma ServerAccepted(cfg: Config, s: Sys, c: nat, ok: bool)
    requires Inv(cfg, s) && Can(cfg, s, c, ServerCheck(ok))
    ensures ok
  {
    var v := Project(cfg, s, c);
    ReplyAccepted(cfg, c, v);
    BetweenIn(s.m.k.messages, c, cfg.server, v.server.msg);
    QueuedFound(s.m.k, v.server.msg);
  }

  // ---------- Each step is a step of one client's machine ----------

  ghost predicate Next(cfg: Config, s: Sys, c: nat, a: Act, s': Sys) {
    Can(cfg, s, c, a) && s' == Do(cfg, s, c, a)
  }

  /** From s to s', client c goes from its view to v, and nobody else sees anything. */
  ghost predicate OnlyFor(cfg: Config, s: Sys, s': Sys, c: nat, v: View) {
    && s'.clients.Keys == s.clients.Keys == s.done.Keys == s'.done.Keys
    && c in s.clients
    && Project(cfg, s', c) == v
    && forall d :: d in s.clients && d != c ==> Project(cfg, s', d) == Project(cfg, s, d)
  }

  lemma NotFailed(cfg: Config, s: Sys, c: nat)
    requires Inv(cfg, s) && c in s.clients
    ensures !s.server.Failed?
  {}

  lemma KernelCheck(s: Sys, t: nat, msg: Msg)
    requires Messaging.Inv(s.m) && t !in s.m.sends && Accepts(s.m.k, msg)
    ensures var m' := Kernel(s, Messaging.Check(t, msg));
            m' == Messaging.State(s.m.k, s.m.sends[t := Messaging.Checked(msg)]) && Messaging.Inv(m')
  {}

  lemma KernelTake(s: Sys, t: nat)
    requires Messaging.Inv(s.m) && t in s.m.sends && s.m.sends[t].Checked?
    ensures var m' := Kernel(s, Messaging.TakeId(t));
            && m' == Messaging.State(s.m.k.(idCounter := s.m.k.idCounter + 1),
                                     s.m.sends[t := Messaging.Numbered(s.m.sends[t].msg.(id := s.m.k.idCounter + 1))])
            && Messaging.Inv(m')
  {
    hide Messaging.Inv;
    Messaging.StepKeepsInv(s.m, Messaging.TakeId(t));
  }

  lemma KernelAppend(s: Sys, t: nat)
    requires Messaging.Inv(s.m) && Messaging.Enabled(s.m, Messaging.Append(t)) && s.m.sends[t].msg.to in s.m.k.alive
    ensures var m' := Kernel(s, Messaging.Append(t));
            && m' == Messaging.State(s.m.k.(messages := s.m.k.messages + [s.m.sends[t].msg]), s.m.sends - {t})
            && Messaging.Inv(m')
  {
    hide Messaging.Inv, MustWait;
    Messaging.StepKeepsInv(s.m, Messaging.Append(t));
  }

  /** With no subscribers, acknowledging just removes the message. */
  lemma KernelAck(s: Sys, p: nat, msg: Msg)
    requires Messaging.Inv(s.m) && msg in s.m.k.messages && s.m.k.subscribers == []
    ensures Find(s.m.k.messages, msg.id) < |s.m.k.messages|
    ensures var m' := Kernel(s, Messaging.Ack(p, msg));
            && m' == Messaging.State(
                       s.m.k.(messages := Erase(s.m.k.messages, Find(s.m.k.messages, msg.id)), current := m'.k.current),
                       s.m.sends)
            && Messaging.Inv(m')
  {
    QueuedFound(s.m.k, msg);
    Messaging.StepKeepsInv(s.m, Messaging.Ack(p, msg));
  }

  lemma ClientUpdate(cfg: Config, s: Sys, c: nat, cl: Client)
    requires Shape(cfg, s) && c in s.clients
    ensures var s' := s.(clients := s.clients[c := cl]);
            Shape(cfg, s') && OnlyFor(cfg, s, s', c, Project(cfg, s, c).(client := cl))
  {
    hide Messaging.Inv, Between, Owned, CallsOf, BufferOf;
  }

  lemma LocalBegin(cfg: Config, s: Sys, c: nat, a: Act, s': Sys)
    requires Inv(cfg, s) && Next(cfg, s, c, a, s') && a.Begin?
    ensures Shape(cfg, s') && OnlyFor(cfg, s, s', c, RpcLocal.Do(cfg, c, Project(cfg, s, c), a))
  {
    hide ViewOk, Shape, OnlyFor, Project, Wire, Last;
    ClientUpdate(cfg, s, c, s'.clients[c]);
  }

  /** The manager's queue, subscribers and processes are unchanged. */
  predicate SameQueue(k: MessageQueue.Kernel, k': MessageQueue.Kernel) {
    k'.messages == k.messages && k'.subscribers == k.subscribers && k'.alive == k.alive && k.idCounter <= k'.idCounter
  }

  lemma KernelGet(s: Sys, p: nat, f: Filter)
    requires Messaging.Inv(s.m)
    ensures var m' := Kernel(s, Messaging.Get(p, f));
            Messaging.Inv(m') && SameQueue(s.m.k, m'.k) && m'.sends == s.m.sends
  {
    hide Messaging.Inv;
    Messaging.StepKeepsInv(s.m, Messaging.Get(p, f));
  }

  /** Whose message it works on shows in no view. */
  lemma CurrentUpdate(cfg: Config, s: Sys, m': Messaging.State)
    requires Shape(cfg, s) && Messaging.Inv(m') && SameQueue(s.m.k, m'.k) && m'.sends == s.m.sends
    ensures Shape(cfg, s.(m := m'))
    ensures forall d :: d in s.clients && d in s.done ==> Project(cfg, s.(m := m'), d) == Project(cfg, s, d)
  {
    hide Messaging.Inv, Between, Owned, CallsOf, BufferOf;
  }

  lemma LocalClientReceive(cfg: Config, s: Sys, c: nat, i: nat, s': Sys)
    requires Inv(cfg, s) && Next(cfg, s, c, ClientReceive(i), s')
    ensures Shape(cfg, s') && OnlyFor(cfg, s, s', c, RpcLocal.Do(cfg, c, Project(cfg, s, c), ClientReceive(i)))
  {
    hide ViewOk, Project, Wire, Last, Kernel, Receive;
    var s1 := s.(m := s'.m);
    GetShape(cfg, s, c, Project(cfg, s, c).client.id);
    ClientUpdate(cfg, s1, c, s'.clients[c]);
  }

  lemma GetShape(cfg: Config, s: Sys, c: nat, id: nat)
    requires Shape(cfg, s)
    ensures var s1 := s.(m := Kernel(s, Messaging.Get(c, ReplyTo(id))));
            && Shape(cfg, s1)
            && forall d :: d in s.clients && d in s.done ==> Project(cfg, s1, d) == Project(cfg, s, d)
  {
    hide Messaging.Inv, Project, Kernel;
    KernelGet(s, c, ReplyTo(id));
    CurrentUpdate(cfg, s, Kernel(s, Messaging.Get(c, ReplyTo(id))));
  }

  lemma ClientSendUpdate(cfg: Config, s: Sys, c: nat, m': Messaging.State, st: Messaging.Stage)
    requires Shape(cfg, s) && c in s.clients
    requires Messaging.Inv(m') && SameQueue(s.m.k, m'.k) && m'.sends == s.m.sends[c := st]
    ensures Shape(cfg, s.(m := m')) && OnlyFor(cfg, s, s.(m := m'), c, Project(cfg, s, c).(clientSend := Some(st)))
  {
    hide Messaging.Inv, Between, Owned, CallsOf, BufferOf;
  }

  lemma LocalClientSend(cfg: Config, s: Sys, c: nat, a: Act, s': Sys)
    requires Inv(cfg, s) && Next(cfg, s, c, a, s') && (a == ClientCheck(true) || a.ClientTake?)
    ensures Shape(cfg, s') && OnlyFor(cfg, s, s', c, RpcLocal.Do(cfg, c, Project(cfg, s, c), a))
  {
    hide ViewOk, OnlyFor, Wire, Last, Kernel, Between, Owned, CallsOf, Accepts, Messaging.Inv, ServerFor;
    if a.ClientTake? {
      KernelTake(s, c);
    } else {
      KernelCheck(s, c, Outgoing(cfg, c, Project(cfg, s, c)));
    }
    ClientSendUpdate(cfg, s, c, s'.m, s'.m.sends[c]);
  }

  /** Taking a new id changes nobody's share of the stored rests. */
  lemma OwnedFresh(remains: map<nat, Octets>, owner: map<nat, nat>, id: nat, c: nat, d: nat, bound: nat)
    requires remains.Keys <= owner.Keys && forall i :: i in owner ==> i <= bound
    ensures id == bound + 1 ==> Owned(remains, owner[id := c], d) == Owned(remains, owner, d)
  {
  }

  /** What the server's sends keep: they answer the message it is working on. */
  lemma ServerSendUpdate(cfg: Config, s: Sys, c: nat, m': Messaging.State, st: Messaging.Stage, owner': map<nat, nat>)
    requires Shape(cfg, s) && c in s.clients && s.server.Replying? && s.server.msg.from == c
    requires Messaging.Inv(m') && SameQueue(s.m.k, m'.k) && m'.sends == s.m.sends[cfg.server := st]
    requires if st.Checked? then owner' == s.owner
             else owner' == s.owner[st.msg.id := c] && st.msg.id == m'.k.idCounter == s.m.k.idCounter + 1
    ensures var s' := s.(m := m', owner := owner');
            Shape(cfg, s') && OnlyFor(cfg, s, s', c, Project(cfg, s, c).(serverSend := Some(st)))
  {
    hide Messaging.Inv, Between, CallsOf, BufferOf, Owned;
    forall d | d in s.clients
      ensures Owned(s.remains, owner', d) == Owned(s.remains, s.owner, d)
    {
      OwnedFresh(s.remains, s.owner, st.msg.id, c, d, s.m.k.idCounter);
    }
  }

  lemma LocalServerSend(cfg: Config, s: Sys, c: nat, a: Act, s': Sys)
    requires Inv(cfg, s) && Next(cfg, s, c, a, s') && (a == ServerCheck(true) || a.ServerTake?)
    ensures Shape(cfg, s') && OnlyFor(cfg, s, s', c, RpcLocal.Do(cfg, c, Project(cfg, s, c), a))
  {
    hide ViewOk, OnlyFor, Wire, Last, Kernel, Between, Owned, CallsOf, Accepts, Messaging.Inv, Head;
    ServerSendFacts(cfg, s, c, a);
    if a.ServerTake? {
      KernelTake(s, cfg.server);
    } else {
      KernelCheck(s, cfg.server, ReplyMsg(cfg, s.server.msg, s.server.data));
    }
    ServerSendUpdate(cfg, s, c, s'.m, s'.m.sends[cfg.server], s'.owner);
  }

  lemma ServerSendFacts(cfg: Config, s: Sys, c: nat, a: Act)
    requires Inv(cfg, s) && Can(cfg, s, c, a) && (a == ServerCheck(true) || a.ServerTake? || a.ServerAppend?)
    ensures s.server.Replying? && s.server.msg.from == c
    ensures a.ServerCheck? <==> cfg.server !in s.m.sends
  {
    hide Between, Owned, CallsOf, Messaging.Inv, ClientOk, Wire, Last;
    assert ViewOk(cfg, c, Project(cfg, s, c));
  }

  // ---------- Appending ----------

  lemma {:induction false} QueueAppended(cfg: Config, s: Sys, msg: Msg, c: nat)
    requires cfg.server !in s.clients && c in s.clients
    ensures var q, q' := s.m.k.messages, s.m.k.messages + [msg];
            && (msg.from == c && msg.to == cfg.server ==>
                  && Between(q', c, cfg.server) == Between(q, c, cfg.server) + [msg]
                  && Between(q', cfg.server, c) == Between(q, cfg.server, c))
            && (msg.from == cfg.server && msg.to == c ==>
                  && Between(q', c, cfg.server) == Between(q, c, cfg.server)
                  && Between(q', cfg.server, c) == Between(q, cfg.server, c) + [msg])
            && (forall d :: d in s.clients && d != c && {msg.from, msg.to} == {c, cfg.server} ==>
                  && Between(q', d, cfg.server) == Between(q, d, cfg.server)
                  && Between(q', cfg.server, d) == Between(q, cfg.server, d))
  {
    hide Between;
    forall d | d in s.clients
      ensures var q, q' := s.m.k.messages, s.m.k.messages + [msg];
              && Between(q', d, cfg.server) == Between(q, d, cfg.server) + (if msg.from == d && msg.to == cfg.server then [msg] else [])
              && Between(q', cfg.server, d) == Between(q, cfg.server, d) + (if msg.from == cfg.server && msg.to == d then [msg] else [])
    {
      BetweenAppend(s.m.k.messages, msg, d, cfg.server);
      BetweenAppend(s.m.k.messages, msg, cfg.server, d);
    }
  }

  ghost predicate Appended(m: Messaging.State, m': Messaging.State, t: nat) {
    && t in m.sends && Messaging.Inv(m')
    && m' == Messaging.State(m.k.(messages := m.k.messages + [m.sends[t].msg]), m.sends - {t})
  }

  lemma ClientAppendUpdate(cfg: Config, s: Sys, c: nat, m': Messaging.State, cl: Client)
    requires Shape(cfg, s) && c in s.clients && Appended(s.m, m', c)
    requires s.m.sends[c].msg.from == c && s.m.sends[c].msg.to == cfg.server
    ensures var s', v := s.(m := m', clients := s.clients[c := cl]), Project(cfg, s, c);
            && Shape(cfg, s')
            && OnlyFor(cfg, s, s', c, v.(client := cl, clientSend := None, toServer := v.toServer + [s.m.sends[c].msg]))
  {
    hide Messaging.Inv, Between, Owned, CallsOf, BufferOf, OnlyFor;
    ClientAppendOnly(cfg, s, c, m', cl);
  }

  lemma ClientAppendOnly(cfg: Config, s: Sys, c: nat, m': Messaging.State, cl: Client)
    requires Shape(cfg, s) && c in s.clients && Appended(s.m, m', c)
    requires s.m.sends[c].msg.from == c && s.m.sends[c].msg.to == cfg.server
    ensures var s', v := s.(m := m', clients := s.clients[c := cl]), Project(cfg, s, c);
            OnlyFor(cfg, s, s', c, v.(client := cl, clientSend := None, toServer := v.toServer + [s.m.sends[c].msg]))
  {
    hide Messaging.Inv, Between, Owned, CallsOf, BufferOf, ServerFor;
    QueueAppended(cfg, s, s.m.sends[c].msg, c);
  }

  lemma ServerAppendUpdate(cfg: Config, s: Sys, c: nat, m': Messaging.State, rest: Option<Octets>)
    requires Shape(cfg, s) && c in s.clients && s.server.Replying? && s.server.msg.from == c
    requires Appended(s.m, m', cfg.server) && s.m.sends[cfg.server].Numbered?
    requires s.m.sends[cfg.server].msg.from == cfg.server && s.m.sends[cfg.server].msg.to == c
    ensures var msg := s.m.sends[cfg.server].msg;
            var s', v := s.(m := m', server := Replied(s.server.msg, msg.id, rest)), Project(cfg, s, c);
            && Shape(cfg, s')
            && OnlyFor(cfg, s, s', c,
                       v.(server := Replied(s.server.msg, msg.id, rest), serverSend := None, toClient := v.toClient + [msg]))
  {
    hide Messaging.Inv, Between, Owned, CallsOf, BufferOf;
    QueueAppended(cfg, s, s.m.sends[cfg.server].msg, c);
  }

  lemma ClientSendShape(cfg: Config, c: nat, v: View)
    requires SendsOk(cfg, c, v) && v.clientSend.Some?
    ensures v.clientSend.value.msg.from == c && v.clientSend.value.msg.to == cfg.server
  {}

  lemma LocalClientAppend(cfg: Config, s: Sys, c: nat, s': Sys)
    requires Inv(cfg, s) && Next(cfg, s, c, ClientAppend, s')
    ensures Shape(cfg, s') && OnlyFor(cfg, s, s', c, RpcLocal.Do(cfg, c, Project(cfg, s, c), ClientAppend))
  {
    hide OnlyFor, Wire, Last, Kernel, Between, Owned, CallsOf, Messaging.Inv, ServerFor, ClientOk, SendsOk, QueueOk;
    assert ViewOk(cfg, c, Project(cfg, s, c));
    ClientSendShape(cfg, c, Project(cfg, s, c));
    KernelAppend(s, c);
    ClientAppendUpdate(cfg, s, c, s'.m, s'.clients[c]);
  }

  lemma ServerSendShape(cfg: Config, c: nat, v: View)
    requires SendsOk(cfg, c, v) && v.serverSend.Some? && v.server.Replying? && v.server.msg.from == c
    ensures v.serverSend.value.msg.from == cfg.server && v.serverSend.value.msg.to == c
    ensures v.serverSend.value.msg.reply
  {}

  lemma LocalServerAppend(cfg: Config, s: Sys, c: nat, s': Sys)
    requires Inv(cfg, s) && Next(cfg, s, c, ServerAppend, s')
    ensures Shape(cfg, s') && OnlyFor(cfg, s, s', c, RpcLocal.Do(cfg, c, Project(cfg, s, c), ServerAppend))
  {
    hide OnlyFor, Wire, Last, Kernel, Between, Owned, CallsOf, Messaging.Inv, ClientOk, SendsOk, QueueOk, Tail;
    assert ViewOk(cfg, c, Project(cfg, s, c));
    ServerSendFacts(cfg, s, c, ServerAppend);
    ServerSendShape(cfg, c, Project(cfg, s, c));
    KernelAppend(s, cfg.server);
    ServerAppendUpdate(cfg, s, c, s'.m, Tail(s.server.data));
  }

  // ---------- Acknowledging ----------

  lemma {:induction false} QueueErased(cfg: Config, s: Sys, msg: Msg, c: nat)
    requires Messaging.Inv(s.m) && msg in s.m.k.messages && cfg.server !in s.clients && c in s.clients
    requires {msg.from, msg.to} == {c, cfg.server}
    ensures Find(s.m.k.messages, msg.id) < |s.m.k.messages|
    ensures var q := s.m.k.messages;
            var q' := Erase(q, Find(q, msg.id));
            && Between(q', c, cfg.server) ==
               (if msg.from == c then Drop(Between(q, c, cfg.server), msg.id) else Between(q, c, cfg.server))
            && Between(q', cfg.server, c) ==
               (if msg.from == c then Between(q, cfg.server, c) else Drop(Between(q, cfg.server, c), msg.id))
            && (forall d :: d in s.clients && d != c ==>
                  && Between(q', d, cfg.server) == Between(q, d, cfg.server)
                  && Between(q', cfg.server, d) == Between(q, cfg.server, d))
  {
    hide Between, Drop, Erase;
    QueuedFound(s.m.k, msg);
    var q := s.m.k.messages;
    var i := Find(q, msg.id);
    assert forall k, l :: 0 <= k < l < |q| ==> q[k].id != q[l].id;
    forall d | d in s.clients
      ensures && Between(Erase(q, i), d, cfg.server) ==
                 (if msg.from == d && msg.to == cfg.server then Drop(Between(q, d, cfg.server), msg.id)
                  else Between(q, d, cfg.server))
              && Between(Erase(q, i), cfg.server, d) ==
                 (if msg.from == cfg.server && msg.to == d then Drop(Between(q, cfg.server, d), msg.id)
                  else Between(q, cfg.server, d))
    {
      BetweenErase(q, i, d, cfg.server);
      BetweenErase(q, i, cfg.server, d);
    }
  }

  lemma TrafficErased(server: nat, clients: set<nat>, q: seq<Msg>, i: nat)
    requires Traffic(server, clients, q) && i < |q|
    ensures Traffic(server, clients, Erase(q, i))
  {}

  ghost predicate Erased(m: Messaging.State, m': Messaging.State, msg: Msg) {
    && Messaging.Inv(m') && msg in m.k.messages && Find(m.k.messages, msg.id) < |m.k.messages|
    && m' == Messaging.State(
               m.k.(messages := Erase(m.k.messages, Find(m.k.messages, msg.id)), current := m'.k.current), m.sends)
  }

  lemma ClientAckUpdate(cfg: Config, s: Sys, c: nat, m': Messaging.State, msg: Msg, cl: Client, done: seq<Call>)
    requires Shape(cfg, s) && c in s.clients && Erased(s.m, m', msg) && msg.from == cfg.server && msg.to == c
    ensures var s' := s.(m := m', clients := s.clients[c := cl], done := s.done[c := done]);
            var v := Project(cfg, s, c);
            Shape(cfg, s') && OnlyFor(cfg, s, s', c, v.(client := cl, done := done, toClient := Drop(v.toClient, msg.id)))
  {
    hide Messaging.Inv, Between, Owned, CallsOf, BufferOf, Drop, Erase, Traffic;
    QueueErased(cfg, s, msg, c);
    TrafficErased(cfg.server, s.clients.Keys, s.m.k.messages, Find(s.m.k.messages, msg.id));
    assert s.clients[c := cl].Keys == s.clients.Keys;
  }

  lemma AfterAckShape(cfg: Config, v: View)
    requires v.client.Got?
    ensures var w := AfterAck(cfg, v);
            w == v.(client := w.client, done := w.done, toClient := Drop(v.toClient, v.client.reply.id))
  {}

  lemma LocalClientAck(cfg: Config, s: Sys, c: nat, s': Sys)
    requires Inv(cfg, s) && Next(cfg, s, c, ClientAck, s')
    ensures Shape(cfg, s') && OnlyFor(cfg, s, s', c, RpcLocal.Do(cfg, c, Project(cfg, s, c), ClientAck))
  {
    hide ViewOk, OnlyFor, Wire, Last, Kernel, Between, Owned, CallsOf, Messaging.Inv, ServerFor, Drop, Erase, AfterAck;
    var v := Project(cfg, s, c);
    AfterAckShape(cfg, v);
    ContinueAccepted(cfg, c, v);
    BetweenIn(s.m.k.messages, cfg.server, c, v.client.reply);
    KernelAck(s, c, v.client.reply);
    ClientAckUpdate(cfg, s, c, s'.m, v.client.reply, s'.clients[c], s'.done[c]);
  }

  lemma ServerAckUpdate(cfg: Config, s: Sys, c: nat, m': Messaging.State)
    requires Shape(cfg, s) && c in s.clients && s.server.Finishing? && s.server.msg.from == c
    requires Erased(s.m, m', s.server.msg) && s.server.msg.to == cfg.server
    ensures var s', v := s.(m := m', server := Ready), Project(cfg, s, c);
            && Shape(cfg, s')
            && OnlyFor(cfg, s, s', c, v.(server := Ready, toServer := Drop(v.toServer, s.server.msg.id)))
  {
    hide Messaging.Inv, Between, Owned, CallsOf, BufferOf, Drop, Erase, Traffic;
    QueueErased(cfg, s, s.server.msg, c);
    TrafficErased(cfg.server, s.clients.Keys, s.m.k.messages, Find(s.m.k.messages, s.server.msg.id));
  }

  lemma LocalServerAck(cfg: Config, s: Sys, c: nat, s': Sys)
    requires Inv(cfg, s) && Next(cfg, s, c, ServerAck, s')
    ensures Shape(cfg, s') && OnlyFor(cfg, s, s', c, RpcLocal.Do(cfg, c, Project(cfg, s, c), ServerAck))
  {
    hide OnlyFor, Wire, Last, Kernel, Between, Owned, CallsOf, Messaging.Inv, Drop, Erase, ClientOk, SendsOk;
    var v := Project(cfg, s, c);
    assert ViewOk(cfg, c, v);
    BetweenIn(s.m.k.messages, c, cfg.server, s.server.msg);
    KernelAck(s, cfg.server, s.server.msg);
    ServerAckUpdate(cfg, s, c, s'.m);
  }

  // ---------- The server's own steps ----------

  lemma ServerUpdate(cfg: Config, s: Sys, c: nat, sv: Server)
    requires Shape(cfg, s) && c in s.clients && !s.server.Replying? && !s.server.Failed?
    requires Busy(s.server) ==> s.server.msg.from == c
    requires (sv.Handling? || sv.Finishing?) && sv.msg.from == c
    ensures var s' := s.(server := sv);
            Shape(cfg, s') && OnlyFor(cfg, s, s', c, Project(cfg, s, c).(server := sv, serverSend := None))
  {
    hide Messaging.Inv, Between, Owned, CallsOf, BufferOf;
  }

  lemma LocalServerReceive(cfg: Config, s: Sys, c: nat, i: nat, s': Sys)
    requires Inv(cfg, s) && Next(cfg, s, c, ServerReceive(i), s')
    ensures Shape(cfg, s') && OnlyFor(cfg, s, s', c, RpcLocal.Do(cfg, c, Project(cfg, s, c), ServerReceive(i)))
  {
    hide ViewOk, Wire, Last, Between, Owned, CallsOf, Messaging.Inv, Shape, SendOf, BufferOf;
    var msg, s1 := Project(cfg, s, c).toServer[i], s.(m := s'.m);
    BetweenIn(s.m.k.messages, c, cfg.server, msg);
    WorkingShape(cfg, s, msg);
    ServerUpdate(cfg, s1, c, s'.server);
  }

  lemma WorkingShape(cfg: Config, s: Sys, msg: Msg)
    requires Shape(cfg, s) && msg in s.m.k.messages && msg.to == cfg.server
    ensures var s1 := s.(m := WorkingOn(s.m, cfg.server, msg));
            && Shape(cfg, s1)
            && forall d :: d in s.clients && d in s.done ==> Project(cfg, s1, d) == Project(cfg, s, d)
  {
    hide Messaging.Inv, Project;
    WorkingKeeps(s.m, cfg.server, msg);
    CurrentUpdate(cfg, s, WorkingOn(s.m, cfg.server, msg));
  }

  lemma WorkingKeeps(m: Messaging.State, p: nat, msg: Msg)
    requires Messaging.Inv(m) && msg in m.k.messages && msg.to == p
    ensures Messaging.Inv(WorkingOn(m, p, msg))
  {
    hide Messaging.KernelOk, Messaging.Reserved;
    Messaging.SetCurrentLater(m.k, p, msg.id);
  }

  lemma StoreUpdate(cfg: Config, s: Sys, c: nat, id: nat, rest: Octets)
    requires Shape(cfg, s) && c in s.clients && s.server.Replied? && s.server.msg.from == c && s.server.id == id
    ensures var s' := s.(remains := s.remains[id := rest]);
            var v := Project(cfg, s, c);
            Shape(cfg, s') && OnlyFor(cfg, s, s', c, v.(remains := v.remains[id := rest]))
  {
    hide Messaging.Inv, Between, CallsOf, BufferOf;
    var r' := s.remains[id := rest];
    assert Owned(r', s.owner, c) == Owned(s.remains, s.owner, c)[id := rest];
    forall d | d in s.clients && d != c
      ensures Owned(r', s.owner, d) == Owned(s.remains, s.owner, d)
    {
    }
  }

  lemma LocalServerStore(cfg: Config, s: Sys, c: nat, s': Sys)
    requires Inv(cfg, s) && Next(cfg, s, c, ServerStore, s')
    ensures Shape(cfg, s') && OnlyFor(cfg, s, s', c, RpcLocal.Do(cfg, c, Project(cfg, s, c), ServerStore))
  {
    hide ViewOk, Wire, Last, Between, Owned, CallsOf, Messaging.Inv;
    var s1 := s.(remains := s'.remains);
    if s.server.rest.Some? {
      StoreUpdate(cfg, s, c, s.server.id, s.server.rest.value);
    }
    ServerUpdate(cfg, s1, c, s'.server);
  }

  lemma {:induction false} CallsAppend(log: seq<(nat, Call)>, x: (nat, Call), c: nat)
    ensures CallsOf(log + [x], c) == CallsOf(log, c) + (if x.0 == c then [x.1] else [])
  {}

  lemma {:induction false} HandleUpdate(cfg: Config, s: Sys, c: nat, s': Sys, sv: Server)
    requires Shape(cfg, s) && c in s.clients && s.server.Handling? && s.server.msg.from == c
    requires s' == s.(buffers := s'.buffers, remains := s'.remains, log := s'.log, server := sv)
    requires (sv.Finishing? || sv.Replying?) && sv.msg.from == c && s'.remains.Keys <= s.remains.Keys
    requires forall d :: d in s.clients && d != c ==>
               && BufferOf(s'.buffers, d) == BufferOf(s.buffers, d)
               && Owned(s'.remains, s.owner, d) == Owned(s.remains, s.owner, d)
               && CallsOf(s'.log, d) == CallsOf(s.log, d)
    ensures && Shape(cfg, s')
            && OnlyFor(cfg, s, s', c,
                       Project(cfg, s, c).(server := sv, serverSend := None, buffer := BufferOf(s'.buffers, c),
                                           remains := Owned(s'.remains, s.owner, c), calls := CallsOf(s'.log, c)))
  {
    hide Messaging.Inv, Between, Owned, CallsOf, BufferOf;
  }

  /** What the server is handed: a chunk, or a Continue whose rest is kept for c. */
  lemma HandledKinds(cfg: Config, c: nat, v: View)
    requires ConfigOk(cfg) && ViewOk(cfg, c, v) && v.server.Handling?
    ensures v.server.msg.kind == cfg.kind || (v.server.msg.kind == CONTINUE && v.server.msg.replyId in v.remains)
    ensures v.serverSend == None
  {}

  lemma HandleChunk(cfg: Config, s: Sys, c: nat, r: Value)
    requires Inv(cfg, s) && c in s.clients && c in s.done && s.server.Handling? && s.server.msg.from == c
    requires s.server.msg.kind == cfg.kind && !HandleMessage(cfg, s, r).server.Failed?
    ensures var s' := HandleMessage(cfg, s, r);
            Shape(cfg, s') && OnlyFor(cfg, s, s', c, Handle(cfg, Project(cfg, s, c), r))
  {
    hide ViewOk, OnlyFor, Shape, Wire, Last, Between, Owned, Messaging.Inv, CallsOf, DeserializeAll, Serialize, Content;
    var s', v := HandleMessage(cfg, s, r), Project(cfg, s, c);
    HandledKinds(cfg, c, v);
    HandleLogs(cfg, s, c, r);
    HandleUpdate(cfg, s, c, s', s'.server);
  }

  /** A call is logged for its client and nobody else. */
  lemma HandleLogs(cfg: Config, s: Sys, c: nat, r: Value)
    requires s.server.Handling? && s.server.msg.from == c && s.server.msg.kind == cfg.kind
    ensures var s' := HandleMessage(cfg, s, r);
            forall d: nat :: CallsOf(s'.log, d) ==
                             CallsOf(s.log, d) + (if d == c && s'.log != s.log then [s'.log[|s'.log| - 1].1] else [])
  {
    hide DeserializeAll, Serialize, Content, CallsOf;
    var s' := HandleMessage(cfg, s, r);
    if s'.log != s.log {
      forall d: nat ensures CallsOf(s'.log, d) == CallsOf(s.log, d) + (if d == c then [s'.log[|s.log|].1] else []) {
        CallsAppend(s.log, s'.log[|s.log|], d);
      }
    }
  }

  lemma HandleContinue(cfg: Config, s: Sys, c: nat, r: Value)
    requires Inv(cfg, s) && c in s.clients && c in s.done && s.server.Handling? && s.server.msg.from == c
    requires s.server.msg.kind != cfg.kind
    ensures var s' := HandleMessage(cfg, s, r);
            Shape(cfg, s') && OnlyFor(cfg, s, s', c, Handle(cfg, Project(cfg, s, c), r))
  {
    hide ViewOk, OnlyFor, Shape, Wire, Last, Between, CallsOf, Messaging.Inv;
    var s', v, id := HandleMessage(cfg, s, r), Project(cfg, s, c), s.server.msg.replyId;
    HandledKinds(cfg, c, v);
    assert Owned(s'.remains, s.owner, c) == Owned(s.remains, s.owner, c) - {id};
    forall d | d in s.clients && d != c
      ensures Owned(s'.remains, s.owner, d) == Owned(s.remains, s.owner, d)
    {
    }
    HandleUpdate(cfg, s, c, s', s'.server);
  }

  lemma LocalServerHandle(cfg: Config, s: Sys, c: nat, r: Value, s': Sys)
    requires Inv(cfg, s) && Next(cfg, s, c, ServerHandle(r), s')
    ensures Shape(cfg, s') && OnlyFor(cfg, s, s', c, RpcLocal.Do(cfg, c, Project(cfg, s, c), ServerHandle(r)))
  {
    hide ViewOk, OnlyFor, Shape, Wire, Last, Between, Owned, CallsOf, Messaging.Inv, HandleMessage, Handle;
    var v := Project(cfg, s, c);
    if s.server.msg.kind == cfg.kind {
      HandleNeverFails(cfg, s, c, r);
      HandleChunk(cfg, s, c, r);
    } else {
      HandleContinue(cfg, s, c, r);
    }
  }

  /** The bytes collected for a call always parse. */
  lemma HandleNeverFails(cfg: Config, s: Sys, c: nat, r: Value)
    requires Inv(cfg, s) && Can(cfg, s, c, ServerHandle(r)) && s.server.Handling? && s.server.msg.from == c
    ensures !HandleMessage(cfg, s, r).server.Failed?
  {
    hide Wire, Last, Between, Owned, CallsOf, Messaging.Inv, ClientOk, SendsOk;
    var v := Project(cfg, s, c);
    HandleKeeps(cfg, c, v, r);
    assert QueueOk(RpcLocal.Do(cfg, c, v, ServerHandle(r)));
  }

  // ---------- The kernel hands over what is waited for ----------

  /** A client that waits gets, from the kernel's filtered receive, the one message the server
      has queued for it, and gets it exactly if that answers the message waited on. */
  lemma {:induction false} ReceivesReply(cfg: Config, s: Sys, c: nat)
    requires Inv(cfg, s) && c in s.clients && c in s.done && s.clients[c].Waiting?
    ensures var v, got := Project(cfg, s, c), Receive(s.m.k, c, ReplyTo(s.clients[c].id)).1;
            && (v.toClient == [] ==> got == None)
            && (v.toClient != [] ==> |v.toClient| == 1 && got == Some(v.toClient[0]) && v.toClient[0].replyId == s.clients[c].id)
  {
    hide Shape, ViewOk, Messaging.KernelOk, Between, Owned, CallsOf, ServerFor, SendOf;
    var v, id, q := Project(cfg, s, c), s.clients[c].id, s.m.k.messages;
    ShapeKernel(cfg, s);
    WaitingInbox(cfg, c, v);
    var i := ReceivedAt(s.m.k, c, ReplyTo(id));
    Messaging.ReceivedIsMine(s.m.k, c, ReplyTo(id));
    if i < |q| {
      FromServer(cfg, s, c, i);
    }
    if v.toClient != [] {
      BetweenIn(q, cfg.server, c, v.toClient[0]);
      var j :| 0 <= j < |q| && q[j] == v.toClient[0];
      Messaging.WakesIffReceives(s.m.k, c, ReplyTo(id));
      assert q[j].to == c && Matches(q[j], ReplyTo(id));
    }
  }

  lemma ShapeKernel(cfg: Config, s: Sys)
    requires Shape(cfg, s)
    ensures Messaging.KernelOk(s.m.k)
  {}

  lemma FromServer(cfg: Config, s: Sys, c: nat, i: nat)
    requires Shape(cfg, s) && c in s.clients && c in s.done && i < |s.m.k.messages| && s.m.k.messages[i].to == c
    ensures s.m.k.messages[i] in Project(cfg, s, c).toClient
  {
    hide Messaging.Inv;
    BetweenIn(s.m.k.messages, cfg.server, c, s.m.k.messages[i]);
  }

  lemma WaitingInbox(cfg: Config, c: nat, v: View)
    requires ViewOk(cfg, c, v) && v.client.Waiting?
    ensures v.toClient == [] || (|v.toClient| == 1 && v.toClient[0].replyId == v.client.id)
  {}

  /** Whatever the kernel hands the server, with whatever filter, is some client's message,
      and to take it is a step of the system. */
  lemma {:induction false} DeliveryIsStep(cfg: Config, s: Sys, f: Filter, msg: Msg) returns (i: nat)
    requires Inv(cfg, s) && s.server.Ready? && Receive(s.m.k, cfg.server, f).1 == Some(msg)
    ensures msg.from in s.clients && msg.from in s.done && i < |Project(cfg, s, msg.from).toServer|
    ensures Project(cfg, s, msg.from).toServer[i] == msg && Can(cfg, s, msg.from, ServerReceive(i))
    ensures Do(cfg, s, msg.from, ServerReceive(i)).m == Messaging.Step(s.m, Messaging.Get(cfg.server, f))
  {
    hide ViewOk, Between, Owned, CallsOf, Matches;
    ShapeKernel(cfg, s);
    Messaging.ReceivedIsMine(s.m.k, cfg.server, f);
    var q := s.m.k.messages;
    assert msg in q && msg.from in s.clients;
    BetweenIn(q, msg.from, cfg.server, msg);
    i :| 0 <= i < |Project(cfg, s, msg.from).toServer| && Project(cfg, s, msg.from).toServer[i] == msg;
  }

  // ---------- The whole system ----------

  /** Each step of the system is a step of one client's machine, with the kernel's
      checks passed, and is invisible to all other clients. */
  lemma Simulates(cfg: Config, s: Sys, c: nat, a: Act, s': Sys)
    requires Inv(cfg, s) && Next(cfg, s, c, a, s')
    ensures Regular(a) && Shape(cfg, s')
    ensures OnlyFor(cfg, s, s', c, RpcLocal.Do(cfg, c, Project(cfg, s, c), a))
  {
    hide Inv, Shape, OnlyFor, RpcLocal.Do, Do, Project, RpcLocal.Can, Accepts, Messaging.Enabled, Outgoing, ReplyMsg;
    match a {
      case Begin(_) => LocalBegin(cfg, s, c, a, s');
      case ClientReceive(i) => LocalClientReceive(cfg, s, c, i, s');
      case ClientCheck(ok) => ClientAccepted(cfg, s, c, ok); LocalClientSend(cfg, s, c, a, s');
      case ClientTake(_) => LocalClientSend(cfg, s, c, a, s');
      case ClientAppend => LocalClientAppend(cfg, s, c, s');
      case ClientAck => LocalClientAck(cfg, s, c, s');
      case ServerReceive(i) => LocalServerReceive(cfg, s, c, i, s');
      case ServerHandle(r) => LocalServerHandle(cfg, s, c, r, s');
      case ServerCheck(ok) => ServerAccepted(cfg, s, c, ok); LocalServerSend(cfg, s, c, a, s');
      case ServerTake(_) => LocalServerSend(cfg, s, c, a, s');
      case ServerAppend => LocalServerAppend(cfg, s, c, s');
      case ServerStore => LocalServerStore(cfg, s, c, s');
      case ServerAck => LocalServerAck(cfg, s, c, s');
    }
  }

  lemma NextKeepsInv(cfg: Config, s: Sys, c: nat, a: Act, s': Sys)
    requires Inv(cfg, s) && Next(cfg, s, c, a, s')
    ensures Inv(cfg, s')
  {
    hide Shape, Project, ViewOk, RpcLocal.Do, Do, RpcLocal.Can;
    Simulates(cfg, s, c, a, s');
    ActKeepsOk(cfg, c, Project(cfg, s, c), a);
  }

  ghost predicate Runs(cfg: Config, s: Sys, es: seq<(nat, Act)>, s': Sys)
    decreases |es|
  {
    if es == [] then s' == s
    else exists t :: Next(cfg, s, es[0].0, es[0].1, t) && Runs(cfg, t, es[1..], s')
  }

  lemma {:induction false} RunKeepsInv(cfg: Config, s: Sys, es: seq<(nat, Act)>, s': Sys)
    requires Inv(cfg, s) && Runs(cfg, s, es, s')
    ensures Inv(cfg, s')
    decreases |es|
  {
    hide Inv, Next;
    if es != [] {
      var t :| Next(cfg, s, es[0].0, es[0].1, t) && Runs(cfg, t, es[1..], s');
      NextKeepsInv(cfg, s, es[0].0, es[0].1, t);
      RunKeepsInv(cfg, t, es[1..], s');
    }
  }

  /** No client has called yet and no message is queued. */
  ghost predicate Initial(cfg: Config, s: Sys) {
    && s.m == Messaging.State(MessageQueue.Kernel([], 0, [], map[], s.m.k.alive), map[])
    && cfg.server !in s.clients && 0 !in s.clients && s.clients.Keys == s.done.Keys
    && s.clients.Keys + {cfg.server} <= s.m.k.alive
    && (forall c :: c in s.clients ==> s.clients[c] == Idle && s.done[c] == [])
    && s.server == Ready && s.buffers == map[] && s.remains == map[] && s.owner == map[] && s.log == []
  }

  lemma InitialInv(cfg: Config, s: Sys)
    requires ConfigOk(cfg) && Initial(cfg, s)
    ensures Inv(cfg, s)
  {
    forall c | c in s.clients
      ensures ViewOk(cfg, c, Project(cfg, s, c))
    {
      assert Owned(s.remains, s.owner, c) == map[];
    }
  }

  /** What the calls in the server's log say about client c's own record of the calls
      it made and the results it got. */
  ghost predicate CallsMatch(s: Sys, c: nat)
    requires c in s.clients && c in s.done
  {
    var calls, done := CallsOf(s.log, c), s.done[c];
    match s.clients[c]
    case Idle => calls == done
    case Sending(_, _) => calls == done
    case Waiting(args, _, _) => calls == done || (|calls| == |done| + 1 && calls[..|done|] == done && calls[|done|].0 == args)
    case Got(args, _, _, _) => |calls| == |done| + 1 && calls[..|done|] == done && calls[|done|].0 == args
    case Broken => false
  }

  /** End to end, in every reachable state and for every client: the server has called
      the procedure exactly once per call, in order, with exactly the arguments sent;
      every result returned to the client is the one that call produced; no send was
      rejected and nothing failed to parse; and of a finished call nothing is left in
      the server's two maps. */
  lemma {:induction false} EndToEnd(cfg: Config, s0: Sys, es: seq<(nat, Act)>, s: Sys, c: nat)
    requires ConfigOk(cfg) && Initial(cfg, s0) && Runs(cfg, s0, es, s) && c in s.clients
    ensures c in s.done && CallsMatch(s, c) && !s.server.Failed?
    ensures s.clients[c].Idle? ==> c !in s.buffers && forall id :: id in s.remains ==> id in s.owner && s.owner[id] != c
  {
    hide Runs;
    InitialInv(cfg, s0);
    RunKeepsInv(cfg, s0, es, s);
    NotFailed(cfg, s, c);
    var v := Project(cfg, s, c);
    assert ViewOk(cfg, c, v);
    ViewCalls(cfg, c, v);
    if s.clients[c].Idle? {
      assert BufferOf(s.buffers, c) == None;
      forall id | id in s.remains
        ensures id in s.owner && s.owner[id] != c
      {
        assert id !in Owned(s.remains, s.owner, c);
      }
    }
  }

  lemma ViewCalls(cfg: Config, c: nat, v: View)
    requires ViewOk(cfg, c, v)
    ensures match v.client
            case Idle => v.calls == v.done && v.remains == map[] && v.buffer == None
            case Sending(_, _) => v.calls == v.done
            case Waiting(args, _, _) => v.calls == v.done || Called(cfg, v, args)
            case Got(args, _, _, _) => Called(cfg, v, args)
            case Broken => false
  {}
}
