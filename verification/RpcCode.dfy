/** The client's chunk loop and the server's message handler as they are coded, against the
    steps of modules RpcLocal and Rpc. */
module RpcCode {
  import opened Machine
  import opened MessageQueue
  import opened Serialization
  import opened RpcLocal
  import opened Rpc

  /** The request loop of a call: the data is cut from the front while the chunk number
      counts down to zero. It sends the chunks that RpcLocal's client sends, in order. */
  method SendRequest(cfg: Config, c: nat, args: seq<Value>) returns (sent: seq<Msg>)
    ensures |sent| == Last(args) + 1
    ensures forall k :: 0 <= k < |sent| ==> sent[k] == ChunkMsg(cfg, c, args, k)
  {
    var data := Wire(args);
    var msgno: int := |data| / CHUNK;
    sent := [];
    while msgno >= 0
      invariant -1 <= msgno <= Last(args) && |sent| == Last(args) - msgno
      invariant msgno >= 0 ==> data == Wire(args)[|sent| * CHUNK..]
      invariant forall k :: 0 <= k < |sent| ==> sent[k] == ChunkMsg(cfg, c, args, k)
      decreases msgno
    {
      var len := if CHUNK < |data| then CHUNK else |data|;
      FrontChunk(args, |sent|, data, len);
      sent := sent + [Msg(0, 0, false, msgno % 0x1_0000, c, cfg.server, cfg.kind, false, Data(data[..len]))];
      msgno := msgno - 1;
      if msgno >= 0 {
        data := data[len..];
      }
    }
  }

  lemma FrontChunk(args: seq<Value>, k: nat, data: Octets, len: nat)
    requires k <= Last(args) && data == Wire(args)[k * CHUNK..] && len == if CHUNK < |data| then CHUNK else |data|
    ensures data[..len] == Chunk(args, k)
    ensures k < Last(args) ==> data[len..] == Wire(args)[(k + 1) * CHUNK..]
  {}

  lemma {:induction false} RequestStep(cfg: Config, s: Sys, result: Value)
    requires s.server.Handling? && s.server.msg.kind == cfg.kind
    ensures var t, m := Rpc.HandleMessage(cfg, s, result), s.server.msg;
            var b := (if m.from in s.buffers then s.buffers[m.from] else []) + Content(m);
            && t.remains == s.remains
            && (m.source != 0 ==> t.server == Finishing(m) && t.buffers == s.buffers[m.from := b])
            && (m.source == 0 && DeserializeAll(cfg.params, b).None? ==> t.server.Failed?)
            && (m.source == 0 && DeserializeAll(cfg.params, b).Some? ==>
                  t.server == Replying(m, Serialize(result)) && t.buffers == s.buffers - {m.from})
  {
    hide DeserializeAll, Serialize, Content;
  }

  /** What handling one message comes to. Malformed: deserializing threw. */
  datatype Answer = Silent | Sent(reply: Msg) | Malformed

  class ProcServer {
    const cfg: Config
    var buffers: map<nat, Octets>
    var returnBuffers: map<nat, Octets>

    constructor (cfg: Config)
      ensures this.cfg == cfg && buffers == map[] && returnBuffers == map[]
    {
      this.cfg := cfg;
      buffers, returnBuffers := map[], map[];
    }

    /** Sends as much of data as a message holds; id is the number the reply gets. */
    method SendPart(msg: Msg, data: Octets, id: nat) returns (a: Answer)
      modifies `returnBuffers
      ensures a == Sent(ReplyMsg(cfg, msg, data))
      ensures returnBuffers == if Tail(data).Some? then old(returnBuffers)[id := Tail(data).value] else old(returnBuffers)
    {
      if |data| > CHUNK {
        var cur, rest := data[..CHUNK], data[CHUNK..];
        a := Sent(Msg(0, msg.id, true, 0, cfg.server, msg.from, CONTINUE, false, Data(cur)));
        returnBuffers := returnBuffers[id := rest];
      } else {
        a := Sent(Msg(0, msg.id, true, 0, cfg.server, msg.from, 0, false, Data(data)));
      }
    }

    ghost predicate Ready(msg: Msg, s: Sys)
      reads this
    {
      s.server == Handling(msg) && s.buffers == buffers && s.remains == returnBuffers
    }

    /** The server of the whole system, s, has been through its handling step and, if it
        replied, through the sending and storing steps. */
    ghost predicate Answered(s: Sys, msg: Msg, result: Value, id: nat, a: Answer)
      requires s.server.Handling?
      reads this
    {
      var t := Rpc.HandleMessage(cfg, s, result);
      if t.server.Failed? then a == Malformed
      else if t.server.Replying? then
        && a == Sent(ReplyMsg(cfg, msg, t.server.data)) && buffers == t.buffers
        && var rest := Tail(t.server.data);
           returnBuffers == if rest.Some? then t.remains[id := rest.value] else t.remains
      else a == Silent && buffers == t.buffers && returnBuffers == t.remains
    }

    method HandleRequest(msg: Msg, result: Value, id: nat, ghost s: Sys) returns (a: Answer)
      requires Ready(msg, s) && msg.kind == cfg.kind
      modifies `buffers, `returnBuffers
      ensures Answered(s, msg, result, id, a)
    {
      hide DeserializeAll, Serialize, Tail, ReplyMsg, Rpc.HandleMessage;
      RequestStep(cfg, s, result);
      var pss := (if msg.from in buffers then buffers[msg.from] else []) + Content(msg);
      buffers := buffers[msg.from := pss];
      if msg.source != 0 {
        return Silent;
      }
      var ps := DeserializeAll(cfg.params, pss);
      if ps.None? {
        return Malformed;
      }
      buffers := buffers - {msg.from};
      assert buffers == s.buffers - {msg.from};
      a := SendPart(msg, Serialize(result), id);
    }

    method HandleContinue(msg: Msg, result: Value, id: nat, ghost s: Sys) returns (a: Answer)
      requires Ready(msg, s) && msg.kind == CONTINUE != cfg.kind
      modifies `returnBuffers
      ensures Answered(s, msg, result, id, a)
    {
      hide Tail, ReplyMsg;
      a := Silent;
      if msg.replyId in returnBuffers {
        var rdata := returnBuffers[msg.replyId];
        returnBuffers := returnBuffers - {msg.replyId};
        a := SendPart(msg, rdata, id);
      }
    }

    /** result is what the procedure returns if it is called. */
    method HandleMessage(msg: Msg, result: Value, id: nat, ghost s: Sys) returns (a: Answer)
      requires Ready(msg, s)
      modifies `buffers, `returnBuffers
      ensures Answered(s, msg, result, id, a)
    {
      a := Silent;
      if msg.kind == cfg.kind {
        a := HandleRequest(msg, result, id, s);
      } else if msg.kind == CONTINUE {
        a := HandleContinue(msg, result, id, s);
      }
    }
  }
}
