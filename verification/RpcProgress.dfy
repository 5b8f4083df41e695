/** Calls come to an end: some party can always move, and every move brings the call
    closer to its return. */
module RpcProgress {
  import opened Machine
  import opened MessageQueue
  import opened Messaging
  import opened Serialization
  import opened RpcLocal
  import opened RpcSafety

  // ---------- A measure every step decreases ----------

  /** 2: arguments still on their way; 1: the procedure was called; 0: no call. */
  function Phase(v: View): nat {
    if v.client.Idle? || v.client.Broken? then 0 else if |v.calls| > |v.done| then 1 else 2
  }

  function StageRank(s: Option<Stage>): nat {
    if s.None? then 2 else if s.value.Checked? then 1 else 0
  }

  function ClientRank(v: View): nat {
    match v.client
    case Idle => 0
    case Sending(_, _) => 1 + StageRank(v.clientSend)
    case Waiting(_, _, _) => 3
    case Got(_, _, reply, next) =>
      if reply.kind != CONTINUE then 1 else if next != 0 then 4 else 5 + StageRank(v.clientSend)
    case Broken => 0
  }

  function ServerRank(v: View): nat {
    match v.server
    case Ready => 20 * |v.toServer|
    case Handling(_) => 8
    case Replying(_, _) => 20 * |Fresh(v)| + 3 + StageRank(v.serverSend)
    case Replied(_, _, _) => 20 * |Fresh(v)| + 2
    case Finishing(_) => 20 * |Fresh(v)| + 1
    case Failed => 0
  }

  /** Chunks still to be sent, or result bytes still to be received. */
  function Bulk(v: View): int {
    match v.client
    case Idle => 0
    case Sending(args, k) => Last(args) + 2 - k
    case Waiting(_, _, acc) => if |v.calls| == |v.done| + 1 then |Result(v)| - |acc| else 0
    case Got(_, acc, _, _) => if |v.calls| == |v.done| + 1 then |Result(v)| - |acc| else 0
    case Broken => 0
  }

  function Work(v: View): int { 400 * Bulk(v) + 31 * ClientRank(v) + ServerRank(v) }

  /** A step moves to an earlier phase, or stays and leaves less work. */
  predicate Closer(v: View, v': View) {
    Phase(v') < Phase(v) || (Phase(v') == Phase(v) && Work(v') < Work(v))
  }

  lemma WorkIsNat(cfg: Config, c: nat, v: View)
    requires ViewOk(cfg, c, v)
    ensures 0 <= Work(v)
  {}

  lemma ClientActsCloser(cfg: Config, c: nat, v: View, a: Act)
    requires ConfigOk(cfg) && ViewOk(cfg, c, v) && Can(cfg, v, a) && Regular(a)
    requires a.ClientCheck? || a.ClientTake? || a.ClientReceive?
    ensures Closer(v, Do(cfg, c, v, a))
  {
    hide Wire, Last;
  }

  lemma ClientAppendCloser(cfg: Config, c: nat, v: View)
    requires ViewOk(cfg, c, v) && Can(cfg, v, ClientAppend)
    ensures Closer(v, Do(cfg, c, v, ClientAppend))
  {
    hide Wire, Last, Coming, Prefix, ChunkMsg;
    var v' := Do(cfg, c, v, ClientAppend);
    assert |Fresh(v')| <= |Fresh(v)| + 1;
    assert ServerRank(v') <= ServerRank(v) + 20;
  }

  lemma ClientAckCloser(cfg: Config, c: nat, v: View)
    requires ViewOk(cfg, c, v) && Can(cfg, v, ClientAck)
    ensures Closer(v, Do(cfg, c, v, ClientAck))
  {}

  lemma ServerActsCloser(cfg: Config, c: nat, v: View, a: Act)
    requires ConfigOk(cfg) && ViewOk(cfg, c, v) && Can(cfg, v, a) && Regular(a)
    requires a.ServerReceive? || a.ServerCheck? || a.ServerTake? || a.ServerAppend? || a.ServerStore?
    ensures Closer(v, Do(cfg, c, v, a))
  {
    hide Wire, Last, Coming, Prefix, ChunkMsg;
    if a.ServerReceive? { ServerReceiveKeeps(cfg, c, v, a.i); }
  }

  /** What handling a message changes. */
  lemma HandleShape(cfg: Config, c: nat, v: View, r: Value)
    requires ConfigOk(cfg) && ViewOk(cfg, c, v) && Can(cfg, v, ServerHandle(r))
    ensures var v' := Do(cfg, c, v, ServerHandle(r));
            && v' == v.(server := v'.server, buffer := v'.buffer, remains := v'.remains, calls := v'.calls)
            && v.toServer == [v.server.msg] && v.serverSend.None?
            && ((v'.server.Replying? || v'.server.Finishing?) && v'.server.msg == v.server.msg)
            && (v'.calls == v.calls || (v.server.msg.kind == cfg.kind && |v'.calls| == |v.calls| + 1))
  {
    hide Wire, Last, ClientOk, HasType, AllHaveType;
    HandleKeeps(cfg, c, v, r);
  }

  /** A request comes before its call, and a Continue after. */
  lemma HandlesFirst(cfg: Config, c: nat, v: View)
    requires ConfigOk(cfg) && ViewOk(cfg, c, v) && v.server.Handling?
    ensures !v.client.Idle? && !v.client.Broken?
    ensures v.calls != v.done ==> v.server.msg.kind == CONTINUE && v.server.msg.reply
    ensures v.client.Waiting? && v.calls == v.done ==> v.client.acc == []
    ensures v.client.Got? ==> v.calls != v.done
    ensures |v.calls| <= |v.done| <==> v.calls == v.done
  {}

  lemma ServerHandleCloser(cfg: Config, c: nat, v: View, r: Value)
    requires ConfigOk(cfg) && ViewOk(cfg, c, v) && Can(cfg, v, ServerHandle(r))
    ensures Closer(v, Do(cfg, c, v, ServerHandle(r)))
  {
    hide ViewOk, Do, Can, Last;
    assert v.server.Handling? by { HandlesNow(cfg, v, r); }
    HandleShape(cfg, c, v, r);
    HandlesFirst(cfg, c, v);
  }

  lemma HandlesNow(cfg: Config, v: View, r: Value)
    requires Can(cfg, v, ServerHandle(r))
    ensures v.server.Handling?
  {}

  lemma ServerAckCloser(cfg: Config, c: nat, v: View)
    requires ViewOk(cfg, c, v) && Can(cfg, v, ServerAck)
    ensures Closer(v, Do(cfg, c, v, ServerAck))
  {}

  /** Every step but the start of a new call brings the current one closer to its end. */
  lemma ActCloser(cfg: Config, c: nat, v: View, a: Act)
    requires ConfigOk(cfg) && ViewOk(cfg, c, v) && Can(cfg, v, a) && Regular(a) && !a.Begin?
    ensures Closer(v, Do(cfg, c, v, a))
  {
    hide ViewOk, Do, Closer, Can;
    if a.ClientAppend? {
      ClientAppendCloser(cfg, c, v);
    } else if a.ClientAck? {
      ClientAckCloser(cfg, c, v);
    } else if a.ServerHandle? {
      ServerHandleCloser(cfg, c, v, a.result);
    } else if a.ServerAck? {
      ServerAckCloser(cfg, c, v);
    } else if a.ClientCheck? || a.ClientTake? || a.ClientReceive? {
      ClientActsCloser(cfg, c, v, a);
    } else {
      ServerActsCloser(cfg, c, v, a);
    }
  }

  // ---------- The steps a call can still take ----------

  /** A bound on them, if results have at most b bytes. */
  function Potential(v: View, b: nat): int {
    Work(v) + if Phase(v) == 2 then 400 * b + 100 else 0
  }

  /** The phase changes only when the procedure is called and when the call returns. */
  lemma PhaseStays(cfg: Config, c: nat, v: View, a: Act)
    requires ConfigOk(cfg) && ViewOk(cfg, c, v) && Can(cfg, v, a) && Regular(a)
    requires !a.Begin? && !a.ServerHandle? && !a.ClientAck?
    ensures Phase(Do(cfg, c, v, a)) == Phase(v)
  {
    hide Wire, Last, Drop, Coming, Prefix, ChunkMsg;
  }

  lemma {:induction false} CallCost(cfg: Config, c: nat, v: View, r: Value)
    requires ConfigOk(cfg) && ViewOk(cfg, c, v) && Can(cfg, v, ServerHandle(r))
    ensures var v' := Do(cfg, c, v, ServerHandle(r));
            Phase(v') != Phase(v) ==> Phase(v) == 2 && Phase(v') == 1 && Work(v') <= 400 * |Serialize(r)| + 98
  {
    hide ViewOk, Can, Last, Wire;
    assert v.server.Handling? by { HandlesNow(cfg, v, r); }
    HandleShape(cfg, c, v, r);
    HandlesFirst(cfg, c, v);
    CallResult(cfg, c, v, r);
  }

  /** A call is made for a client that waits, with the result that the procedure gives. */
  lemma CallResult(cfg: Config, c: nat, v: View, r: Value)
    requires ConfigOk(cfg) && ViewOk(cfg, c, v) && Can(cfg, v, ServerHandle(r))
    ensures var v' := Do(cfg, c, v, ServerHandle(r));
            v'.calls != v.calls ==>
              && v.client.Waiting? && v.calls == v.done && v.client.acc == []
              && |v'.calls| == |v.calls| + 1 && v'.calls[..|v.calls|] == v.calls && v'.calls[|v.calls|].1 == r
  {
    hide ViewOk, Can, Last, Wire;
    assert v.server.Handling? by { HandlesNow(cfg, v, r); }
    HandlesFirst(cfg, c, v);
    HandleKeeps(cfg, c, v, r);
    SendingNotCalled(cfg, c, v);
    SendingNotCalled(cfg, c, Do(cfg, c, v, ServerHandle(r)));
  }

  lemma SendingNotCalled(cfg: Config, c: nat, v: View)
    requires ViewOk(cfg, c, v)
    ensures v.client.Sending? ==> v.calls == v.done
  {}

  lemma ReturnCost(cfg: Config, c: nat, v: View)
    requires ViewOk(cfg, c, v) && Can(cfg, v, ClientAck)
    ensures var v' := Do(cfg, c, v, ClientAck); Phase(v') != Phase(v) ==> Phase(v) == 1 && Phase(v') == 0 && Work(v') < Work(v)
  {
    hide Wire, Last, Drop;
    ClientAckKeeps(cfg, c, v);
  }

  lemma PotentialFalls(cfg: Config, c: nat, v: View, a: Act, b: nat)
    requires ConfigOk(cfg) && ViewOk(cfg, c, v) && Can(cfg, v, a) && Regular(a) && !a.Begin?
    requires a.ServerHandle? ==> |Serialize(a.result)| <= b
    ensures 0 <= Potential(Do(cfg, c, v, a), b) < Potential(v, b)
  {
    hide ViewOk, Do, Can, Work, Phase, Serialize;
    var v' := Do(cfg, c, v, a);
    ActKeepsOk(cfg, c, v, a);
    ActCloser(cfg, c, v, a);
    WorkIsNat(cfg, c, v);
    WorkIsNat(cfg, c, v');
    if a.ServerHandle? {
      CallCost(cfg, c, v, a.result);
    } else if a.ClientAck? {
      ReturnCost(cfg, c, v);
    } else {
      PhaseStays(cfg, c, v, a);
    }
  }

  // ---------- A call goes on, or returns ----------

  function Args(cl: Client): seq<Value>
    requires cl.Sending? || cl.Waiting? || cl.Got?
  {
    cl.args
  }

  predicate InCall(cl: Client) { cl.Sending? || cl.Waiting? || cl.Got? }

  /** From v on, with no further call begun: the call in progress is the same, or it has
      returned and is on record. */
  predicate GoesOn(v: View, v': View) {
    if InCall(v.client) then
      (InCall(v'.client) && Args(v'.client) == Args(v.client) && v'.done == v.done)
      || (&& v'.client.Idle? && |v'.done| == |v.done| + 1 && v'.done[..|v.done|] == v.done
          && v'.done[|v.done|].0 == Args(v.client))
    else v'.client == v.client && v'.done == v.done
  }

  lemma GoesOnFurther(v: View, w: View, v': View)
    requires GoesOn(v, w) && GoesOn(w, v')
    ensures GoesOn(v, v')
  {}

  lemma ActGoesOn(cfg: Config, c: nat, v: View, a: Act)
    requires ConfigOk(cfg) && ViewOk(cfg, c, v) && Can(cfg, v, a) && Regular(a) && !a.Begin?
    ensures GoesOn(v, Do(cfg, c, v, a))
  {
    hide ViewOk, Handle, Last, Wire, Drop;
    ActKeepsOk(cfg, c, v, a);
    NotBroken(cfg, c, Do(cfg, c, v, a));
    if a.ServerHandle? { HandleShape(cfg, c, v, a.result); }
  }

  lemma NotBroken(cfg: Config, c: nat, v: View)
    requires ViewOk(cfg, c, v)
    ensures !v.client.Broken?
  {}

  // ---------- Somebody can always move ----------

  /** A step that is possible whenever a call is in progress or the server is busy:
      the server's next step if it is busy, else the client's, else a delivery. */
  function NextAct(v: View, result: Value, id: nat): Act {
    match v.server
    case Handling(_) => ServerHandle(result)
    case Replying(_, _) =>
      if v.serverSend.None? then ServerCheck(true)
      else if v.serverSend.value.Checked? then ServerTake(id) else ServerAppend
    case Replied(_, _, _) => ServerStore
    case Finishing(_) => ServerAck
    case _ =>
      if v.toServer != [] then ServerReceive(0)
      else if v.client.Waiting? then ClientReceive(0)
      else if v.client.Got? && (v.client.reply.kind != CONTINUE || v.client.next != 0) then ClientAck
      else if v.clientSend.None? then ClientCheck(true)
      else if v.clientSend.value.Checked? then ClientTake(id) else ClientAppend
  }

  /** No deadlock: until the client is idle and the server done with it, a step is
      possible. */
  lemma {:induction false} NeverStuck(cfg: Config, c: nat, v: View, result: Value, id: nat)
    requires ViewOk(cfg, c, v) && HasType(result, cfg.result) && id != 0
    requires !v.client.Idle? || !v.server.Ready?
    ensures Can(cfg, v, NextAct(v, result, id)) && Regular(NextAct(v, result, id)) && !NextAct(v, result, id).Begin?
  {
    hide Wire, Last, Prefix;
  }

  // ---------- A server that skips replies ----------

  /** The filter of MessageLoop::RunLoop. */
  const NON_REPLIES := Filter(true, None, None, None, None, false)

  /** A server that receives with that filter. */
  predicate Seen(v: View, a: Act) {
    a.ServerReceive? && a.i < |v.toServer| ==> Matches(v.toServer[a.i], NON_REPLIES)
  }

  predicate FitsOne(v: View)
    requires |v.calls| == |v.done| + 1
  {
    |Result(v)| <= CHUNK
  }

  /** What then holds of a call in progress: the first reply is the only one, and it is
      final exactly if the result fits one message. */
  predicate OneReply(v: View) {
    && (v.server.Handling? ==> !v.server.msg.reply)
    && (|v.calls| == |v.done| + 1 ==>
          match v.client
          case Waiting(_, _, acc) =>
            if v.server.Replying? then acc == []
            else if v.toClient != [] then acc == [] && (v.toClient[0].kind == CONTINUE <==> !FitsOne(v))
            else !FitsOne(v)
          case Got(_, _, reply, next) =>
            && (reply.kind == CONTINUE <==> !FitsOne(v))
            && |v.toClient| == 1 && !v.server.Replying?
          case _ => true)
  }

  lemma OneReplyKept(cfg: Config, c: nat, v: View, a: Act)
    requires ConfigOk(cfg) && ViewOk(cfg, c, v) && OneReply(v) && Can(cfg, v, a) && Regular(a) && Seen(v, a)
    ensures OneReply(Do(cfg, c, v, a))
  {
    hide ViewOk, OneReply, Do, Can;
    if a.ClientAck? {
      OneReplyAck(cfg, c, v);
    } else if a.ServerHandle? {
      OneReplyHandle(cfg, c, v, a.result);
    } else if a.ServerReceive? || a.ServerCheck? || a.ServerTake? || a.ServerAppend? || a.ServerStore? || a.ServerAck? {
      OneReplyServer(cfg, c, v, a);
    } else {
      OneReplyClient(cfg, c, v, a);
    }
  }

  lemma OneReplyAck(cfg: Config, c: nat, v: View)
    requires ViewOk(cfg, c, v) && OneReply(v) && Can(cfg, v, ClientAck)
    ensures OneReply(Do(cfg, c, v, ClientAck))
  {
    hide Wire, Last, Drop, Coming, Prefix, ChunkMsg;
    DropFirst(v.toClient, v.client.reply.id);
  }

  lemma OneReplyHandle(cfg: Config, c: nat, v: View, r: Value)
    requires ConfigOk(cfg) && ViewOk(cfg, c, v) && OneReply(v) && Can(cfg, v, ServerHandle(r))
    ensures OneReply(Do(cfg, c, v, ServerHandle(r)))
  {
    hide ViewOk, Do, Can, FitsOne;
    HandlesNow(cfg, v, r);
    HandleShape(cfg, c, v, r);
    HandlesFirst(cfg, c, v);
    CallReplies(cfg, c, v, r);
  }

  lemma CallReplies(cfg: Config, c: nat, v: View, r: Value)
    requires ConfigOk(cfg) && ViewOk(cfg, c, v) && Can(cfg, v, ServerHandle(r))
    ensures Do(cfg, c, v, ServerHandle(r)).calls != v.calls ==> Do(cfg, c, v, ServerHandle(r)).server.Replying?
  {
    hide ViewOk;
  }

  lemma OneReplyServer(cfg: Config, c: nat, v: View, a: Act)
    requires ConfigOk(cfg) && ViewOk(cfg, c, v) && OneReply(v) && Can(cfg, v, a) && Regular(a) && Seen(v, a)
    requires a.ServerReceive? || a.ServerCheck? || a.ServerTake? || a.ServerAppend? || a.ServerStore? || a.ServerAck?
    ensures OneReply(Do(cfg, c, v, a))
  {
    hide Wire, Last, Drop, Prefix;
    if a.ServerReceive? {
      ServerReceiveKeeps(cfg, c, v, a.i);
    }
  }

  lemma OneReplyClient(cfg: Config, c: nat, v: View, a: Act)
    requires ViewOk(cfg, c, v) && OneReply(v) && Can(cfg, v, a) && Regular(a)
    requires a.Begin? || a.ClientCheck? || a.ClientTake? || a.ClientAppend? || a.ClientReceive?
    ensures OneReply(Do(cfg, c, v, a))
  {
    hide Wire, Last, Drop, Prefix;
  }

  /** Behind such a server, a call returns only if its result fits one message. */
  lemma ReturnsOnlyIfFits(cfg: Config, c: nat, v: View, a: Act)
    requires ViewOk(cfg, c, v) && OneReply(v) && Can(cfg, v, a) && Regular(a)
    requires Do(cfg, c, v, a).done != v.done
    ensures |v.calls| == |v.done| + 1 && FitsOne(v)
  {
    hide Wire, Last, Drop;
  }

  /** Every result returned so far is of its type and fitted one message. */
  predicate DoneFits(cfg: Config, v: View) {
    forall k :: 0 <= k < |v.done| ==> HasType(v.done[k].1, cfg.result) && |Serialize(v.done[k].1)| <= CHUNK
  }

  lemma DoneFitsKept(cfg: Config, c: nat, v: View, a: Act)
    requires ConfigOk(cfg) && ViewOk(cfg, c, v) && OneReply(v) && DoneFits(cfg, v) && Can(cfg, v, a) && Regular(a)
    ensures DoneFits(cfg, Do(cfg, c, v, a))
  {
    hide ViewOk, OneReply, Serialize, HasType, Handle, Last, Wire, Drop;
    var v' := Do(cfg, c, v, a);
    if v'.done != v.done {
      ReturnsOnlyIfFits(cfg, c, v, a);
      ActKeepsOk(cfg, c, v, a);
      ReturnedResult(cfg, c, v, a);
    }
  }

  /** What a call returns is what the procedure gave. */
  lemma ReturnedResult(cfg: Config, c: nat, v: View, a: Act)
    requires ConfigOk(cfg) && ViewOk(cfg, c, v) && Can(cfg, v, a) && Regular(a) && Do(cfg, c, v, a).done != v.done
    ensures Do(cfg, c, v, a).done == v.calls && |v.calls| == |v.done| + 1 && v.calls[..|v.done|] == v.done
    ensures HasType(v.calls[|v.done|].1, cfg.result)
  {
    hide Handle, Last, Wire, Drop;
    ActKeepsOk(cfg, c, v, a);
    if a.ServerHandle? { HandleShape(cfg, c, v, a.result); }
  }

  /** Waiting for a part that the server will not be handed. */
  predicate Stuck(v: View) {
    v.client.Waiting? && v.server.Ready? && v.toClient == [] && |v.toServer| == 1 && v.toServer[0].reply
  }

  /** The server free and only a reply before it: its client can finish with the reply it
      has, or is stuck, for want of a part of a result too long for one message. */
  lemma ReplyWaits(cfg: Config, c: nat, v: View)
    requires ConfigOk(cfg) && ViewOk(cfg, c, v) && v.server.Ready? && v.toServer != [] && v.toServer[0].reply
    ensures Stuck(v) || Can(cfg, v, ClientAck)
    ensures Stuck(v) ==> |v.calls| == |v.done| + 1 && HasType(v.calls[|v.done|].1, cfg.result)
    ensures Stuck(v) && OneReply(v) ==> !FitsOne(v)
  {
    hide Last, Wire;
  }

  /** With the server free, one message at most is before it; and if it may take it only if
      it is no reply, an idle or stuck client has no step. */
  lemma NoStep(cfg: Config, c: nat, v: View, a: Act)
    requires ConfigOk(cfg) && ViewOk(cfg, c, v) && v.server.Ready? && Can(cfg, v, a) && !a.Begin?
    ensures !v.client.Idle? && (Stuck(v) ==> !Seen(v, a))
  {
    hide Last, Wire;
  }
}
