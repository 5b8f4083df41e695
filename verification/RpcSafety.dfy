/** Every step of the per-client machine keeps its invariant: arguments arrive whole
    and once, result bytes are conserved across the Continue exchange, and no send is
    ever rejected. */
module RpcSafety {
  import opened MessageQueue
  import opened Messaging
  import opened Serialization
  import opened RpcLocal

  // ---------- Arithmetic of chunks ----------

  lemma NextPrefix(args: seq<Value>, k: nat)
    requires k < Last(args)
    ensures Prefix(args, k + 1).value == (if k == 0 then [] else Prefix(args, k).value) + Chunk(args, k)
  {}

  lemma WholeWire(args: seq<Value>)
    ensures (if Last(args) == 0 then [] else Prefix(args, Last(args)).value) + Chunk(args, Last(args)) == Wire(args)
  {}

  lemma DropFirst(q: seq<Msg>, id: nat)
    requires q != [] && q[0].id == id
    ensures Drop(q, id) == q[1..]
  {}

  // ---------- Client steps ----------

  lemma BeginKeeps(cfg: Config, c: nat, v: View, args: seq<Value>)
    requires ViewOk(cfg, c, v) && Can(cfg, v, Begin(args))
    ensures ViewOk(cfg, c, Do(cfg, c, v, Begin(args)))
  {
  }

  /** The reply a Continue answers is still queued, so the kernel accepts it. */
  lemma ContinueAccepted(cfg: Config, c: nat, v: View)
    requires ViewOk(cfg, c, v) && v.client.Got?
    ensures v.client.reply in v.toClient && v.client.reply.from == cfg.server && v.client.reply.to == c
  {
  }

  lemma ClientCheckKeeps(cfg: Config, c: nat, v: View)
    requires ViewOk(cfg, c, v) && Can(cfg, v, ClientCheck(true))
    ensures ViewOk(cfg, c, Do(cfg, c, v, ClientCheck(true)))
  {
    hide SendingOk, GotOk, WaitingOk, Last, Wire;
    SameButSends(cfg, c, v, Do(cfg, c, v, ClientCheck(true)));
  }

  lemma ClientTakeKeeps(cfg: Config, c: nat, v: View, id: nat)
    requires ViewOk(cfg, c, v) && Can(cfg, v, ClientTake(id)) && id != 0
    ensures ViewOk(cfg, c, Do(cfg, c, v, ClientTake(id)))
  {
    hide SendingOk, GotOk, WaitingOk, Last, Wire;
    SameButSends(cfg, c, v, Do(cfg, c, v, ClientTake(id)));
  }

  /** The client's obligations do not mention sends in flight. */
  lemma SameButSends(cfg: Config, c: nat, v: View, v': View)
    requires ClientOk(cfg, c, v)
    requires v' == v.(clientSend := v'.clientSend, serverSend := v'.serverSend)
    ensures ClientOk(cfg, c, v') && Fresh(v') == Fresh(v)
  {
    hide Last, Wire;
  }

  /** The kernel lets a chunk in only once the previous one is gone, and by then the
      server has consumed it. */
  lemma PreviousChunkGone(cfg: Config, c: nat, v: View)
    requires ViewOk(cfg, c, v) && Can(cfg, v, ClientAppend) && v.client.Sending?
    ensures Fresh(v) == []
  {}

  lemma ChunkAppendKeeps(cfg: Config, c: nat, v: View)
    requires ViewOk(cfg, c, v) && Can(cfg, v, ClientAppend) && v.client.Sending?
    ensures ViewOk(cfg, c, Do(cfg, c, v, ClientAppend))
  {
    hide Wire, Last, ChunkMsg, Prefix, GotOk, Coming, ContinueMsg, AllHaveType;
    PreviousChunkGone(cfg, c, v);
    assert Fresh(Do(cfg, c, v, ClientAppend)) == [v.clientSend.value.msg];
  }

  lemma ContinueAppendKeeps(cfg: Config, c: nat, v: View)
    requires ViewOk(cfg, c, v) && Can(cfg, v, ClientAppend) && v.client.Got?
    ensures ViewOk(cfg, c, Do(cfg, c, v, ClientAppend))
  {
    hide Wire, Last, GotOk;
    ContinueAppendGot(cfg, c, v);
  }

  lemma ContinueAppendGot(cfg: Config, c: nat, v: View)
    requires ViewOk(cfg, c, v) && Can(cfg, v, ClientAppend) && v.client.Got?
    ensures var v', g := Do(cfg, c, v, ClientAppend), v.client;
            GotOk(cfg, c, v', g.args, g.acc, g.reply, v.clientSend.value.msg.id) && !v.server.Handling?
  {
    hide Wire, Last, Prefix, ChunkMsg, HasType, AllHaveType;
    assert Fresh(Do(cfg, c, v, ClientAppend)) == [v.clientSend.value.msg];
  }

  lemma ClientReceiveKeeps(cfg: Config, c: nat, v: View, i: nat)
    requires ViewOk(cfg, c, v) && Can(cfg, v, ClientReceive(i))
    ensures ViewOk(cfg, c, Do(cfg, c, v, ClientReceive(i)))
  {
    hide Wire, Last;
  }

  /** The client returns exactly the value the procedure returned. */
  lemma ClientAckKeeps(cfg: Config, c: nat, v: View)
    requires ViewOk(cfg, c, v) && Can(cfg, v, ClientAck)
    ensures ViewOk(cfg, c, Do(cfg, c, v, ClientAck))
  {
    hide Wire, Last, Drop;
    var g := v.client;
    DropFirst(v.toClient, g.reply.id);
    if g.next == 0 {
      var r := v.calls[|v.done|].1;
      RoundTrip(cfg.result, r, []);
      assert Serialize(r) + [] == g.acc;
    }
  }

  // ---------- Server steps ----------

  lemma ServerReceiveKeeps(cfg: Config, c: nat, v: View, i: nat)
    requires ViewOk(cfg, c, v) && Can(cfg, v, ServerReceive(i))
    ensures ViewOk(cfg, c, Do(cfg, c, v, ServerReceive(i)))
  {
    hide Wire, Last;
    assert Fresh(v) == v.toServer && |v.toServer| == 1;
  }

  lemma HandleChunkKeeps(cfg: Config, c: nat, v: View, r: Value)
    requires ViewOk(cfg, c, v) && Can(cfg, v, ServerHandle(r)) && v.client.Sending?
    ensures ViewOk(cfg, c, Do(cfg, c, v, ServerHandle(r)))
  {
    var args, k := v.client.args, v.client.k;
    NextPrefix(args, k - 1);
    SourceMarksLast(Last(args));
    hide Wire;
    assert Source(Last(args), k - 1) != 0;
  }

  /** The procedure is called with exactly the arguments that were sent. */
  lemma HandleLastKeeps(cfg: Config, c: nat, v: View, r: Value)
    requires ConfigOk(cfg) && ViewOk(cfg, c, v) && Can(cfg, v, ServerHandle(r))
    requires v.client.Waiting? && v.calls == v.done
    ensures ViewOk(cfg, c, Do(cfg, c, v, ServerHandle(r)))
    ensures Do(cfg, c, v, ServerHandle(r)).calls == v.calls + [(v.client.args, r)]
  {
    var args := v.client.args;
    WholeWire(args);
    RoundTripAll(cfg.params, args, []);
    assert Wire(args) + [] == Wire(args);
    hide Wire, Last;
  }

  lemma HandleContinueKeeps(cfg: Config, c: nat, v: View, r: Value)
    requires ConfigOk(cfg) && ViewOk(cfg, c, v) && Can(cfg, v, ServerHandle(r))
    requires v.calls != v.done
    ensures ViewOk(cfg, c, Do(cfg, c, v, ServerHandle(r)))
  {
    hide Wire, Last;
    assert Fresh(v) == [v.server.msg];
  }

  /** The request a reply answers is still queued, with to and from mirrored. */
  lemma ReplyAccepted(cfg: Config, c: nat, v: View)
    requires ViewOk(cfg, c, v) && v.server.Replying?
    ensures v.server.msg in v.toServer && v.server.msg.from == c
  {
  }

  lemma ServerCheckKeeps(cfg: Config, c: nat, v: View)
    requires ViewOk(cfg, c, v) && Can(cfg, v, ServerCheck(true))
    ensures ViewOk(cfg, c, Do(cfg, c, v, ServerCheck(true)))
  {
    hide Wire, Last, ClientOk;
    SameButSends(cfg, c, v, Do(cfg, c, v, ServerCheck(true)));
  }

  lemma ServerTakeKeeps(cfg: Config, c: nat, v: View, id: nat)
    requires ViewOk(cfg, c, v) && Can(cfg, v, ServerTake(id)) && id != 0
    ensures ViewOk(cfg, c, Do(cfg, c, v, ServerTake(id)))
  {
    hide Wire, Last, ClientOk;
    SameButSends(cfg, c, v, Do(cfg, c, v, ServerTake(id)));
  }

  /** Sending a reply moves the bytes from the server's hands to the inbox. */
  lemma ReplyDelivers(cfg: Config, c: nat, v: View, id: nat, acc: Octets)
    requires QueueOk(v) && SendsOk(cfg, c, v) && Can(cfg, v, ServerAppend) && |v.calls| == |v.done| + 1
    requires Coming(cfg, c, v, id, acc, [])
    ensures var v' := Do(cfg, c, v, ServerAppend);
            Coming(cfg, c, v', id, acc, [v.serverSend.value.msg])
  {}

  lemma ServerAppendKeeps(cfg: Config, c: nat, v: View)
    requires ViewOk(cfg, c, v) && Can(cfg, v, ServerAppend)
    ensures ViewOk(cfg, c, Do(cfg, c, v, ServerAppend))
  {
    hide Wire, Last, Head, Tail, Content;
    var m := v.serverSend.value.msg;
    if v.client.Waiting? {
      ReplyDelivers(cfg, c, v, v.client.id, v.client.acc);
      assert v.toClient + [m] == [m];
    } else {
      ReplyDelivers(cfg, c, v, v.client.next, v.client.acc);
      assert (v.toClient + [m])[1..] == [m];
    }
  }

  lemma ServerStoreKeeps(cfg: Config, c: nat, v: View)
    requires ViewOk(cfg, c, v) && Can(cfg, v, ServerStore)
    ensures ViewOk(cfg, c, Do(cfg, c, v, ServerStore))
  {
    hide Wire, Last;
  }

  lemma ServerAckKeeps(cfg: Config, c: nat, v: View)
    requires ViewOk(cfg, c, v) && Can(cfg, v, ServerAck)
    ensures ViewOk(cfg, c, Do(cfg, c, v, ServerAck))
  {
    hide Wire, Last, Drop;
    DropFirst(v.toServer, v.server.msg.id);
    assert Fresh(Do(cfg, c, v, ServerAck)) == Fresh(v);
  }

  // ---------- All steps ----------

  /** Kernel checks succeed and issued ids are not null. */
  predicate Regular(a: Act) {
    match a
    case ClientCheck(ok) => ok
    case ServerCheck(ok) => ok
    case ClientTake(id) => id != 0
    case ServerTake(id) => id != 0
    case _ => true
  }

  lemma HandleKeeps(cfg: Config, c: nat, v: View, r: Value)
    requires ConfigOk(cfg) && ViewOk(cfg, c, v) && Can(cfg, v, ServerHandle(r))
    ensures ViewOk(cfg, c, Do(cfg, c, v, ServerHandle(r)))
  {
    hide SendingOk, WaitingOk, GotOk, SendsOk, Handle;
    HandlesWhat(cfg, c, v);
    if v.client.Sending? {
      HandleChunkKeeps(cfg, c, v, r);
    } else if v.calls == v.done {
      HandleLastKeeps(cfg, c, v, r);
    } else {
      HandleContinueKeeps(cfg, c, v, r);
    }
  }

  /** The server is handed a message only while its client is in a call. */
  lemma HandlesWhat(cfg: Config, c: nat, v: View)
    requires ViewOk(cfg, c, v) && v.server.Handling?
    ensures v.client.Sending? || v.client.Waiting? || v.calls != v.done
  {}

  /** Every step of every party keeps the invariant. */
  lemma ActKeepsOk(cfg: Config, c: nat, v: View, a: Act)
    requires ConfigOk(cfg) && ViewOk(cfg, c, v) && Can(cfg, v, a) && Regular(a)
    ensures ViewOk(cfg, c, Do(cfg, c, v, a))
  {
    hide ViewOk, Do;
    match a {
      case Begin(args) => BeginKeeps(cfg, c, v, args);
      case ClientCheck(_) => ClientCheckKeeps(cfg, c, v);
      case ClientTake(id) => ClientTakeKeeps(cfg, c, v, id);
      case ClientAppend =>
        if v.client.Sending? { ChunkAppendKeeps(cfg, c, v); } else { ContinueAppendKeeps(cfg, c, v); }
      case ClientReceive(i) => ClientReceiveKeeps(cfg, c, v, i);
      case ClientAck => ClientAckKeeps(cfg, c, v);
      case ServerReceive(i) => ServerReceiveKeeps(cfg, c, v, i);
      case ServerHandle(r) => HandleKeeps(cfg, c, v, r);
      case ServerCheck(_) => ServerCheckKeeps(cfg, c, v);
      case ServerTake(id) => ServerTakeKeeps(cfg, c, v, id);
      case ServerAppend => ServerAppendKeeps(cfg, c, v);
      case ServerStore => ServerStoreKeeps(cfg, c, v);
      case ServerAck => ServerAckKeeps(cfg, c, v);
    }
  }
}
