/** Remote procedure calls as one client sees them: the client, the messages between
    it and the server, and the part of the server's state that concerns it. Module
    Rpc shows that any interleaving of any number of clients is, for each of them, a
    run of this machine. */
module RpcLocal {
  import opened Machine
  import opened MessageQueue
  import opened Messaging
  import opened Serialization

  const CHUNK := 4096                    // BT_MSG_MAX
  const CONTINUE: nat := 0xFFFF_FFFF     // MessageType_Continue

  type Octets = seq<Octet>

  /** One procedure: the serving process, the message type that names it, and the
      types of its parameters and result. */
  datatype Config = Config(server: nat, kind: nat, params: seq<Ty>, result: Ty)

  ghost predicate ConfigOk(cfg: Config) {
    cfg.server != 0 && cfg.kind != CONTINUE
  }

  /** Where a client stands. Sending: k chunks are out. Waiting: for a reply to
      message id, with acc received so far. Got: reply is received and added to acc;
      next is the id of the Continue sent in return, 0 if none yet. Broken: a send was
      rejected or the result did not parse. */
  datatype Client =
    | Idle
    | Sending(args: seq<Value>, k: nat)
    | Waiting(args: seq<Value>, id: nat, acc: Octets)
    | Got(args: seq<Value>, acc: Octets, reply: Msg, next: nat)
    | Broken

  /** Where the server stands with its current message. Replying: data is still to be
      sent. Replied: the reply with that id is out, rest is still to be stored. */
  datatype Server =
    | Ready
    | Handling(msg: Msg)
    | Replying(msg: Msg, data: Octets)
    | Replied(msg: Msg, id: nat, rest: Option<Octets>)
    | Finishing(msg: Msg)
    | Failed

  /** A call as logged: the arguments and the result. */
  type Call = (seq<Value>, Value)

  datatype View = View(
    client: Client, clientSend: Option<Stage>,
    toServer: seq<Msg>, toClient: seq<Msg>,
    server: Server, serverSend: Option<Stage>,
    buffer: Option<Octets>, remains: map<nat, Octets>,
    calls: seq<Call>, done: seq<Call>)

  // ---------- Messages ----------

  function Wire(args: seq<Value>): Octets { SerializeAll(args) }

  /** Number of the last chunk; there is always at least chunk 0. */
  function Last(args: seq<Value>): nat { |Wire(args)| / CHUNK }

  function Chunk(args: seq<Value>, k: nat): Octets
    requires k <= Last(args)
  {
    if k < Last(args) then Wire(args)[k * CHUNK..(k + 1) * CHUNK] else Wire(args)[k * CHUNK..]
  }

  /** The source field is 16 bits wide. */
  function Source(last: nat, k: nat): nat
    requires k <= last
  {
    (last - k) % 0x1_0000
  }

  function ChunkMsg(cfg: Config, c: nat, args: seq<Value>, k: nat): Msg
    requires k <= Last(args)
  {
    Msg(0, 0, false, Source(Last(args), k), c, cfg.server, cfg.kind, false, Data(Chunk(args, k)))
  }

  function ContinueMsg(cfg: Config, c: nat, reply: Msg): Msg {
    Msg(0, reply.id, true, 0, c, cfg.server, CONTINUE, false, Data([]))
  }

  function Head(data: Octets): Octets { if |data| > CHUNK then data[..CHUNK] else data }

  function Tail(data: Octets): Option<Octets> { if |data| > CHUNK then Some(data[CHUNK..]) else None }

  function ReplyMsg(cfg: Config, msg: Msg, data: Octets): Msg {
    Msg(0, msg.id, true, 0, cfg.server, msg.from, if |data| > CHUNK then CONTINUE else 0, false, Data(Head(data)))
  }

  /** What a client waits with: the reply to that message. */
  function ReplyTo(id: nat): Filter { Filter(false, None, Some(id), None, None, false) }

  function Content(m: Msg): Octets { if m.payload.Data? then m.payload.bytes else [] }

  /** The queue without its first message of that id. */
  function Drop(q: seq<Msg>, id: nat): seq<Msg> {
    if Have(q, id) then Erase(q, Find(q, id)) else q
  }

  /** The messages of a call, field by field. A request is cut into pieces of 4096 bytes; each
      carries the number of those that follow, in 16 bits. A Continue answers a reply. */
  lemma {:induction false} RequestFields(cfg: Config, c: nat, args: seq<Value>, k: nat, reply: Msg)
    requires k <= |SerializeAll(args)| / 4096
    ensures Last(args) == |SerializeAll(args)| / 4096
    ensures var w, last := SerializeAll(args), |SerializeAll(args)| / 4096;
            ChunkMsg(cfg, c, args, k) ==
            Msg(0, 0, false, (last - k) % 0x1_0000, c, cfg.server, cfg.kind, false,
                Data(w[4096 * k..if k == last then |w| else 4096 * k + 4096]))
    ensures ContinueMsg(cfg, c, reply) == Msg(0, reply.id, true, 0, c, cfg.server, 0xFFFF_FFFF, false, Data([]))
  {
    var w, last := SerializeAll(args), |SerializeAll(args)| / 4096;
    assert Last(args) == last && Wire(args) == w;
    assert k * CHUNK == 4096 * k && (k + 1) * CHUNK == 4096 * k + 4096;
    assert w[4096 * k..] == w[4096 * k..|w|];
    assert Chunk(args, k) == w[4096 * k..if k == last then |w| else 4096 * k + 4096];
  }

  /** A reply answers the message it is made for and carries the next 4096 bytes of the result,
      or what is left; its type says whether more is to come. */
  lemma ReplyFields(cfg: Config, msg: Msg, data: Octets)
    ensures var n := if |data| <= 4096 then |data| else 4096;
            && ReplyMsg(cfg, msg, data) ==
               Msg(0, msg.id, true, 0, cfg.server, msg.from, if |data| <= 4096 then 0 else 0xFFFF_FFFF, false, Data(data[..n]))
            && Tail(data) == (if |data| <= 4096 then None else Some(data[n..]))
  {
    assert |data| <= 4096 ==> data[..|data|] == data;
  }

  /** A non-final chunk never looks final exactly when there are at most 65536. */
  lemma SourceMarksLast(last: nat)
    ensures (forall k: nat :: k < last ==> Source(last, k) != 0) <==> last < 0x1_0000
  {
    if last >= 0x1_0000 {
      assert Source(last, last - 0x1_0000) == 0;
    }
  }

  // ---------- Steps ----------

  datatype Act =
    | Begin(args: seq<Value>)
    | ClientCheck(ok: bool) | ClientTake(id: nat) | ClientAppend
    | ClientReceive(i: nat) | ClientAck
    | ServerReceive(i: nat) | ServerHandle(result: Value)
    | ServerCheck(ok: bool) | ServerTake(id: nat) | ServerAppend
    | ServerStore | ServerAck

  predicate ClientSends(v: View) {
    v.client.Sending? || (v.client.Got? && v.client.reply.kind == CONTINUE && v.client.next == 0)
  }

  /** The message the client is about to send. */
  function Outgoing(cfg: Config, c: nat, v: View): Msg
    requires ClientSends(v) && (v.client.Sending? ==> v.client.k <= Last(v.client.args))
  {
    if v.client.Sending? then ChunkMsg(cfg, c, v.client.args, v.client.k) else ContinueMsg(cfg, c, v.client.reply)
  }

  ghost predicate Can(cfg: Config, v: View, a: Act) {
    match a
    case Begin(args) => v.client.Idle? && AllHaveType(args, cfg.params) && Last(args) < 0x1_0000
    case ClientCheck(_) => ClientSends(v) && v.clientSend.None? && (v.client.Sending? ==> v.client.k <= Last(v.client.args))
    case ClientTake(_) => v.clientSend.Some? && v.clientSend.value.Checked?
    case ClientAppend => v.clientSend.Some? && v.clientSend.value.Numbered? && ClientSends(v)
                         && (v.clientSend.value.msg.reply || forall i :: 0 <= i < |v.toServer| ==> v.toServer[i].reply)
    case ClientReceive(i) => v.client.Waiting? && i < |v.toClient| && v.toClient[i].replyId == v.client.id
    case ClientAck => v.client.Got? && (v.client.reply.kind != CONTINUE || v.client.next != 0)
    case ServerReceive(i) => v.server.Ready? && i < |v.toServer|
    case ServerHandle(r) => v.server.Handling? && HasType(r, cfg.result)
    case ServerCheck(_) => v.server.Replying? && v.serverSend.None?
    case ServerTake(_) => v.serverSend.Some? && v.serverSend.value.Checked?
    case ServerAppend => v.serverSend.Some? && v.serverSend.value.Numbered? && v.server.Replying?
    case ServerStore => v.server.Replied?
    case ServerAck => v.server.Finishing?
  }

  /** What the client does once its message is in the queue. */
  function AfterSend(cl: Client, id: nat): Client
    requires cl.Sending? || cl.Got?
  {
    if cl.Got? then cl.(next := id)
    else if cl.k >= Last(cl.args) then Waiting(cl.args, id, []) else Sending(cl.args, cl.k + 1)
  }

  /** The end of a reply: wait for the next part, or parse the whole and return. */
  function AfterAck(cfg: Config, v: View): View
    requires v.client.Got?
  {
    var g := v.client;
    var w := v.(toClient := Drop(v.toClient, g.reply.id));
    if g.next != 0 then w.(client := Waiting(g.args, g.next, g.acc)) else
    var r := Deserialize(cfg.result, g.acc);
    if r.None? then w.(client := Broken) else w.(client := Idle, done := v.done + [(g.args, r.value.0)])
  }

  /** HandleMessage up to the reply; `result` is what the procedure returns if called. */
  function Handle(cfg: Config, v: View, result: Value): View
    requires v.server.Handling?
  {
    var m := v.server.msg;
    if m.kind == cfg.kind then
      var b := (if v.buffer.Some? then v.buffer.value else []) + Content(m);
      if m.source != 0 then v.(buffer := Some(b), server := Finishing(m)) else
      var ps := DeserializeAll(cfg.params, b);
      if ps.None? then v.(server := Failed) else
      v.(buffer := None, calls := v.calls + [(ps.value.0, result)], server := Replying(m, Serialize(result)))
    else if m.kind == CONTINUE && m.replyId in v.remains then
      v.(remains := v.remains - {m.replyId}, server := Replying(m, v.remains[m.replyId]))
    else v.(server := Finishing(m))
  }

  function Do(cfg: Config, c: nat, v: View, a: Act): View
    requires Can(cfg, v, a)
  {
    match a
    case Begin(args) => v.(client := Sending(args, 0))
    case ClientCheck(ok) => if ok then v.(clientSend := Some(Checked(Outgoing(cfg, c, v)))) else v.(client := Broken)
    case ClientTake(id) => v.(clientSend := Some(Numbered(v.clientSend.value.msg.(id := id))))
    case ClientAppend =>
      var m := v.clientSend.value.msg;
      v.(clientSend := None, toServer := v.toServer + [m], client := AfterSend(v.client, m.id))
    case ClientReceive(i) =>
      var r := v.toClient[i];
      v.(client := Got(v.client.args, v.client.acc + Content(r), r, 0))
    case ClientAck => AfterAck(cfg, v)
    case ServerReceive(i) => v.(server := Handling(v.toServer[i]))
    case ServerHandle(r) => Handle(cfg, v, r)
    case ServerCheck(ok) =>
      if ok then v.(serverSend := Some(Checked(ReplyMsg(cfg, v.server.msg, v.server.data)))) else v.(server := Failed)
    case ServerTake(id) => v.(serverSend := Some(Numbered(v.serverSend.value.msg.(id := id))))
    case ServerAppend =>
      var m := v.serverSend.value.msg;
      v.(serverSend := None, toClient := v.toClient + [m],
         server := Replied(v.server.msg, m.id, Tail(v.server.data)))
    case ServerStore =>
      v.(remains := if v.server.rest.Some? then v.remains[v.server.id := v.server.rest.value] else v.remains,
         server := Finishing(v.server.msg))
    case ServerAck => v.(toServer := Drop(v.toServer, v.server.msg.id), server := Ready)
  }

  // ---------- The invariant ----------

  predicate Past(s: Server) { s.Replying? || s.Replied? || s.Finishing? }

  /** Messages to the server that it has not yet processed. */
  function Fresh(v: View): seq<Msg> {
    if Past(v.server) && v.toServer != [] then v.toServer[1..] else v.toServer
  }

  predicate QueueOk(v: View) {
    && (Past(v.server) ==> v.toServer != [] && v.toServer[0] == v.server.msg)
    && (v.server.Handling? ==> v.toServer == [v.server.msg])
    && !v.server.Failed?
    && (v.server.Handling? || Past(v.server) ==> v.server.msg.id != 0)
  }

  /** The server owes this client nothing. */
  predicate Quiet(v: View) {
    v.remains == map[] && !v.server.Replying? && !(v.server.Replied? && v.server.rest.Some?)
  }

  /** The rest of a result is in the server's hands under reply id: about to be stored,
      or stored. */
  predicate Kept(v: View, id: nat) {
    && !v.server.Replying?
    && if v.server.Replied? && v.server.rest.Some?
       then v.remains == map[] && v.server.id == id
       else v.remains.Keys == {id}
  }

  function Rest(v: View, id: nat): Octets
    requires Kept(v, id)
  {
    if v.server.Replied? && v.server.rest.Some? then v.server.rest.value else v.remains[id]
  }

  /** What the buffer holds after k chunks. */
  function Prefix(args: seq<Value>, k: nat): Option<Octets>
    requires k <= Last(args)
  {
    if k == 0 then None else Some(Wire(args)[..k * CHUNK])
  }

  predicate IsChunk(cfg: Config, c: nat, m: Msg, args: seq<Value>, k: nat)
    requires k <= Last(args)
  {
    m.id != 0 && m.(id := 0) == ChunkMsg(cfg, c, args, k)
  }

  predicate IsContinue(cfg: Config, c: nat, m: Msg, replyId: nat) {
    m.id != 0 && m == Msg(m.id, replyId, true, 0, c, cfg.server, CONTINUE, false, Data([]))
  }

  /** A reply from the server to this client. */
  predicate IsReply(cfg: Config, c: nat, r: Msg) {
    && r.id != 0 && r.from == cfg.server && r.to == c && r.reply && !r.critical && r.payload.Data?
    && (r.kind == CONTINUE ==> Content(r) != [])
  }

  /** The call in progress has been made: one call is logged that is not yet done. */
  predicate Called(cfg: Config, v: View, args: seq<Value>) {
    && |v.calls| == |v.done| + 1 && v.calls[..|v.done|] == v.done
    && v.calls[|v.done|].0 == args && HasType(v.calls[|v.done|].1, cfg.result)
  }

  /** The bytes of its result. */
  function Result(v: View): Octets
    requires |v.calls| == |v.done| + 1
  {
    Serialize(v.calls[|v.done|].1)
  }

  /** Those beyond acc are on their way in answer to message id: about to be sent, in
      the inbox, or asked for by a Continue. */
  predicate Coming(cfg: Config, c: nat, v: View, id: nat, acc: Octets, inbox: seq<Msg>)
    requires |v.calls| == |v.done| + 1
  {
    if v.server.Replying? then
      && inbox == [] && Fresh(v) == [] && v.server.msg.id == id && v.server.msg.from == c
      && v.remains == map[] && acc + v.server.data == Result(v)
    else if inbox != [] then
      && |inbox| == 1 && Fresh(v) == [] && IsReply(cfg, c, inbox[0]) && inbox[0].replyId == id
      && Delivers(v, acc + Content(inbox[0]), inbox[0])
    else
      && |Fresh(v)| == 1 && Fresh(v)[0].id == id
      && IsContinue(cfg, c, Fresh(v)[0], Fresh(v)[0].replyId) && Kept(v, Fresh(v)[0].replyId)
      && acc + Rest(v, Fresh(v)[0].replyId) == Result(v)
  }

  /** With reply r received, acc is the whole result, or what is missing is kept. */
  predicate Delivers(v: View, acc: Octets, r: Msg)
    requires |v.calls| == |v.done| + 1
  {
    if r.kind == CONTINUE then Kept(v, r.id) && acc + Rest(v, r.id) == Result(v)
    else Quiet(v) && acc == Result(v)
  }

  predicate ArgsOk(cfg: Config, args: seq<Value>) {
    AllHaveType(args, cfg.params) && Last(args) < 0x1_0000
  }

  predicate SendingOk(cfg: Config, c: nat, v: View, args: seq<Value>, k: nat) {
    && ArgsOk(cfg, args) && k <= Last(args)
    && v.calls == v.done && v.toClient == [] && Quiet(v)
    && if Fresh(v) == [] then v.buffer == Prefix(args, k)
       else k > 0 && |Fresh(v)| == 1 && IsChunk(cfg, c, Fresh(v)[0], args, k - 1) && v.buffer == Prefix(args, k - 1)
  }

  predicate WaitingOk(cfg: Config, c: nat, v: View, args: seq<Value>, id: nat, acc: Octets) {
    ArgsOk(cfg, args) && id != 0 &&
    if v.calls == v.done then
      && acc == [] && v.toClient == [] && Quiet(v)
      && |Fresh(v)| == 1 && IsChunk(cfg, c, Fresh(v)[0], args, Last(args)) && Fresh(v)[0].id == id
      && v.buffer == Prefix(args, Last(args))
    else
      v.buffer == None && Called(cfg, v, args) && Coming(cfg, c, v, id, acc, v.toClient)
  }

  predicate GotOk(cfg: Config, c: nat, v: View, args: seq<Value>, acc: Octets, reply: Msg, next: nat) {
    && ArgsOk(cfg, args) && v.buffer == None && Called(cfg, v, args)
    && IsReply(cfg, c, reply) && v.toClient != [] && v.toClient[0] == reply
    && if next == 0 then |v.toClient| == 1 && Fresh(v) == [] && Delivers(v, acc, reply)
       else reply.kind == CONTINUE && Coming(cfg, c, v, next, acc, v.toClient[1..])
  }

  predicate ClientOk(cfg: Config, c: nat, v: View) {
    match v.client
    case Idle => Fresh(v) == [] && v.toClient == [] && v.buffer == None && Quiet(v) && v.calls == v.done
    case Sending(args, k) => SendingOk(cfg, c, v, args, k)
    case Waiting(args, id, acc) => WaitingOk(cfg, c, v, args, id, acc)
    case Got(args, acc, reply, next) => GotOk(cfg, c, v, args, acc, reply, next)
    case Broken => false
  }

  predicate SendsOk(cfg: Config, c: nat, v: View) {
    && (v.clientSend.Some? ==>
          && ClientSends(v) && (v.client.Sending? ==> v.client.k <= Last(v.client.args))
          && v.clientSend.value.msg.(id := 0) == Outgoing(cfg, c, v)
          && (v.clientSend.value.Numbered? ==> v.clientSend.value.msg.id != 0))
    && (v.serverSend.Some? ==>
          && v.server.Replying?
          && v.serverSend.value.msg.(id := 0) == ReplyMsg(cfg, v.server.msg, v.server.data)
          && (v.serverSend.value.Numbered? ==> v.serverSend.value.msg.id != 0))
  }

  predicate ViewOk(cfg: Config, c: nat, v: View) {
    QueueOk(v) && SendsOk(cfg, c, v) && ClientOk(cfg, c, v)
  }
}
