/** Every call returns: the whole system, with its one server and the kernel's queue, never
    locks up, and takes only so many steps before every call in progress is over. The same
    for a server behind the filter of MessageLoop::RunLoop, which is not handed replies:
    there a call returns exactly if its result fits one message. */
module RpcReturns {
  import opened Machine
  import opened MessageQueue
  import opened Serialization
  import opened RpcLocal
  import opened RpcSafety
  import opened RpcProgress
  import Rpc
  import Messaging

  // ---------- Runs in which no call begins ----------

  ghost predicate Able(cfg: Config, filtered: bool, s: Rpc.Sys, c: nat, a: Act) {
    Rpc.Can(cfg, s, c, a) && (filtered ==> Seen(Rpc.Project(cfg, s, c), a))
  }

  ghost predicate Step(cfg: Config, filtered: bool, s: Rpc.Sys, c: nat, a: Act, s': Rpc.Sys) {
    Able(cfg, filtered, s, c, a) && s' == Rpc.Do(cfg, s, c, a)
  }

  /** Runs of the system, behind the filter or not. */
  ghost predicate Runs(cfg: Config, filtered: bool, s: Rpc.Sys, es: seq<(nat, Act)>, s': Rpc.Sys)
    decreases |es|
  {
    if es == [] then s' == s
    else exists t :: Step(cfg, filtered, s, es[0].0, es[0].1, t) && Runs(cfg, filtered, t, es[1..], s')
  }

  predicate NoBegin(es: seq<(nat, Act)>) { forall i :: 0 <= i < |es| ==> !es[i].1.Begin? }

  /** All results are of at most b bytes. */
  predicate Bounded(es: seq<(nat, Act)>, b: nat) {
    forall i :: 0 <= i < |es| && es[i].1.ServerHandle? ==> |Serialize(es[i].1.result)| <= b
  }

  /** Nothing can happen but that a call begins. */
  ghost predicate Quiet(cfg: Config, filtered: bool, s: Rpc.Sys) {
    forall c, a :: Able(cfg, filtered, s, c, a) ==> a.Begin?
  }

  // ---------- Somebody can always move ----------

  ghost predicate Pending(cfg: Config, filtered: bool, s: Rpc.Sys, c: nat)
    requires c in s.clients && c in s.done
  {
    var v := Rpc.Project(cfg, s, c); v.toServer != [] && (filtered ==> !v.toServer[0].reply)
  }

  lemma ServerMoves(cfg: Config, filtered: bool, s: Rpc.Sys, result: Value) returns (c: nat, a: Act)
    requires Rpc.Inv(cfg, s) && HasType(result, cfg.result) && Rpc.Busy(s.server)
    ensures Able(cfg, filtered, s, c, a) && !a.Begin? && (a.ServerHandle? ==> a.result == result)
  {
    hide ViewOk, Rpc.Between, Rpc.Owned, Rpc.CallsOf, Accepts, Messaging.Inv, Receive, Rpc.Traffic, Matches, ReplyMsg,
         Messaging.Enabled, Wire, Last;
    c := s.server.msg.from;
    var v := Rpc.Project(cfg, s, c);
    var id := s.m.k.idCounter + 1;
    NeverStuck(cfg, c, v, result, id);
    a := NextAct(v, result, id);
    if a.ServerCheck? { a := ServerCheck(Accepts(s.m.k, ReplyMsg(cfg, v.server.msg, v.server.data))); }
  }

  lemma DeliveryMoves(cfg: Config, filtered: bool, s: Rpc.Sys, c: nat) returns (a: Act)
    requires Rpc.Inv(cfg, s) && s.server.Ready? && c in s.clients && c in s.done && Pending(cfg, filtered, s, c)
    ensures Able(cfg, filtered, s, c, a) && a == ServerReceive(0)
  {
    a := ServerReceive(0);
  }

  lemma ClientMoves(cfg: Config, filtered: bool, s: Rpc.Sys, c: nat, result: Value) returns (a: Act)
    requires Rpc.Inv(cfg, s) && HasType(result, cfg.result) && s.server.Ready? && c in s.clients && c in s.done
    requires !s.clients[c].Idle? && Rpc.Project(cfg, s, c).toServer == []
    ensures Able(cfg, filtered, s, c, a) && !a.Begin? && !a.ServerHandle?
  {
    hide ViewOk, Rpc.Owned, Rpc.CallsOf, Accepts, Messaging.Inv;
    var v := Rpc.Project(cfg, s, c);
    var id := s.m.k.idCounter + 1;
    NeverStuck(cfg, c, v, result, id);
    a := NextAct(v, result, id);
    if a.ClientCheck? {
      a := ClientCheck(Accepts(s.m.k, Outgoing(cfg, c, v)));
    } else if a.ClientAppend? {
      AppendEnabled(cfg, s, c);
    } else if a.ClientReceive? {
      Rpc.ReceivesReply(cfg, s, c);
    }
  }

  /** With nothing of its own before the server, a client's message need not wait. */
  lemma AppendEnabled(cfg: Config, s: Rpc.Sys, c: nat)
    requires Rpc.Inv(cfg, s) && c in s.clients && c in s.done && Rpc.Project(cfg, s, c).toServer == []
    requires var send := Rpc.Project(cfg, s, c).clientSend; send.Some? && send.value.Numbered?
    ensures Messaging.Enabled(s.m, Messaging.Append(c))
  {
    var v, q := Rpc.Project(cfg, s, c), s.m.k.messages;
    assert ViewOk(cfg, c, v);
    Rpc.ClientSendShape(cfg, c, v);
    forall i | 0 <= i < |q| ensures !(q[i].from == c && q[i].to == cfg.server) {
      Rpc.BetweenIn(q, c, cfg.server, q[i]);
    }
  }

  /** While the server is busy, or some client is in a call and not stuck, somebody can move. */
  lemma SomebodyMoves(cfg: Config, filtered: bool, s: Rpc.Sys, d: nat, result: Value) returns (c: nat, a: Act)
    requires Rpc.Inv(cfg, s) && HasType(result, cfg.result) && d in s.clients && d in s.done
    requires Rpc.Busy(s.server) || (!s.clients[d].Idle? && (filtered ==> !Stuck(Rpc.Project(cfg, s, d))))
    ensures Able(cfg, filtered, s, c, a) && !a.Begin? && (a.ServerHandle? ==> a.result == result)
  {
    hide Rpc.Inv, Rpc.Project, Able, Stuck;
    Rpc.NotFailed(cfg, s, d);
    if Rpc.Busy(s.server) {
      c, a := ServerMoves(cfg, filtered, s, result);
    } else if c' :| c' in s.clients && c' in s.done && Pending(cfg, filtered, s, c') {
      c := c';
      a := DeliveryMoves(cfg, filtered, s, c);
    } else if Rpc.Project(cfg, s, d).toServer == [] {
      c := d;
      a := ClientMoves(cfg, filtered, s, d, result);
    } else {
      c, a := d, ClientAck;
      AckMoves(cfg, filtered, s, d);
    }
  }

  lemma AckMoves(cfg: Config, filtered: bool, s: Rpc.Sys, c: nat)
    requires Rpc.Inv(cfg, s) && c in s.clients && c in s.done && s.server.Ready?
    requires var v := Rpc.Project(cfg, s, c); v.toServer != [] && v.toServer[0].reply && !Stuck(v)
    ensures Able(cfg, filtered, s, c, ClientAck)
  {
    hide ViewOk, Stuck, Rpc.Between, Rpc.Owned, Rpc.CallsOf;
    ReplyWaits(cfg, c, Rpc.Project(cfg, s, c));
  }

  // ---------- Only so many steps ----------

  ghost function Pick(ks: set<nat>): (k: nat)
    requires ks != {}
    ensures k in ks
  {
    var k :| k in ks; k
  }

  ghost function Sum(ks: set<nat>, m: map<nat, int>): int
    requires ks <= m.Keys
    decreases |ks|
  {
    if ks == {} then 0 else m[Pick(ks)] + Sum(ks - {Pick(ks)}, m)
  }

  lemma {:induction false} SumTakes(ks: set<nat>, m: map<nat, int>, k: nat)
    requires ks <= m.Keys && k in ks
    ensures Sum(ks, m) == m[k] + Sum(ks - {k}, m)
    decreases |ks|
  {
    var j := Pick(ks);
    if j != k {
      SumTakes(ks - {j}, m, k);
      SumTakes(ks - {k}, m, j);
      assert ks - {j} - {k} == ks - {k} - {j};
    }
  }

  lemma {:induction false} SumNonNegative(ks: set<nat>, m: map<nat, int>)
    requires ks <= m.Keys && forall k :: k in m ==> m[k] >= 0
    ensures Sum(ks, m) >= 0
    decreases |ks|
  {
    if ks != {} { SumNonNegative(ks - {Pick(ks)}, m); }
  }

  lemma {:induction false} SumSame(ks: set<nat>, m: map<nat, int>, m': map<nat, int>)
    requires ks <= m.Keys && ks <= m'.Keys && forall k :: k in ks ==> m'[k] == m[k]
    ensures Sum(ks, m') == Sum(ks, m)
    decreases |ks|
  {
    if ks != {} { SumSame(ks - {Pick(ks)}, m, m'); }
  }

  lemma {:induction false} SumFalls(m: map<nat, int>, m': map<nat, int>, k: nat)
    requires m'.Keys == m.Keys && k in m && m'[k] < m[k] && forall j :: j in m && j != k ==> m'[j] == m[j]
    ensures Sum(m'.Keys, m') < Sum(m.Keys, m)
  {
    SumTakes(m.Keys, m, k);
    SumTakes(m.Keys, m', k);
    SumSame(m.Keys - {k}, m, m');
  }

  /** The steps all calls in progress can still take, if results have at most b bytes. */
  ghost function Potentials(cfg: Config, s: Rpc.Sys, b: nat): map<nat, int> {
    map c | c in s.clients && c in s.done :: Potential(Rpc.Project(cfg, s, c), b)
  }

  ghost function Total(cfg: Config, s: Rpc.Sys, b: nat): int {
    var m := Potentials(cfg, s, b); Sum(m.Keys, m)
  }

  lemma TotalIsNat(cfg: Config, s: Rpc.Sys, b: nat)
    requires Rpc.Inv(cfg, s)
    ensures Total(cfg, s, b) >= 0
  {
    hide Rpc.Project, ViewOk, Rpc.Shape, Work, Phase;
    forall c | c in s.clients && c in s.done ensures Potential(Rpc.Project(cfg, s, c), b) >= 0 {
      KeysAgree(cfg, s);
      WorkIsNat(cfg, c, Rpc.Project(cfg, s, c));
    }
    SumNonNegative(Potentials(cfg, s, b).Keys, Potentials(cfg, s, b));
  }

  lemma KeysAgree(cfg: Config, s: Rpc.Sys)
    requires Rpc.Inv(cfg, s)
    ensures s.clients.Keys == s.done.Keys
  {}

  lemma StepFalls(cfg: Config, s: Rpc.Sys, c: nat, a: Act, s': Rpc.Sys, b: nat)
    requires Rpc.Inv(cfg, s) && Rpc.Next(cfg, s, c, a, s') && !a.Begin?
    requires a.ServerHandle? ==> |Serialize(a.result)| <= b
    ensures Rpc.Inv(cfg, s') && Total(cfg, s', b) < Total(cfg, s, b)
  {
    hide Rpc.Project, ViewOk, Rpc.Shape, Rpc.Do, RpcLocal.Do, RpcLocal.Can, Potential, Serialize;
    Rpc.NextKeepsInv(cfg, s, c, a, s');
    Rpc.Simulates(cfg, s, c, a, s');
    PotentialFalls(cfg, c, Rpc.Project(cfg, s, c), a, b);
    SumFalls(Potentials(cfg, s, b), Potentials(cfg, s', b), c);
  }

  /** A run in which no call begins has at most as many steps. */
  lemma {:induction false} RunIsBounded(cfg: Config, filtered: bool, s: Rpc.Sys, es: seq<(nat, Act)>, s': Rpc.Sys, b: nat)
    requires Rpc.Inv(cfg, s) && Runs(cfg, filtered, s, es, s') && NoBegin(es) && Bounded(es, b)
    ensures Rpc.Inv(cfg, s') && |es| <= Total(cfg, s, b) - Total(cfg, s', b) <= Total(cfg, s, b)
    decreases |es|
  {
    hide Rpc.Inv, Rpc.Can, Rpc.Do, Total, Serialize;
    if es != [] {
      var c, a := es[0].0, es[0].1;
      var t :| Step(cfg, filtered, s, c, a, t) && Runs(cfg, filtered, t, es[1..], s');
      StepFalls(cfg, s, c, a, t, b);
      RunIsBounded(cfg, filtered, t, es[1..], s', b);
    }
    TotalIsNat(cfg, s', b);
  }

  // ---------- When nothing more can happen ----------

  /** Everybody is through, or stuck behind the filter. */
  ghost predicate Over(cfg: Config, filtered: bool, s: Rpc.Sys) {
    && !Rpc.Busy(s.server)
    && forall c :: c in s.clients && c in s.done ==>
         s.clients[c].Idle? || (filtered && Stuck(Rpc.Project(cfg, s, c)))
  }

  lemma OverIsQuiet(cfg: Config, filtered: bool, s: Rpc.Sys)
    requires Rpc.Inv(cfg, s) && Over(cfg, filtered, s)
    ensures Quiet(cfg, filtered, s)
  {
    hide ViewOk, Stuck, RpcLocal.Can, Seen, Rpc.Between, Rpc.Owned, Rpc.CallsOf;
    forall c, a | Able(cfg, filtered, s, c, a) ensures a.Begin? {
      if !a.Begin? {
        Rpc.NotFailed(cfg, s, c);
        NoStep(cfg, c, Rpc.Project(cfg, s, c), a);
      }
    }
  }

  lemma {:induction false} QuietIsOver(cfg: Config, filtered: bool, s: Rpc.Sys, result: Value)
    requires Rpc.Inv(cfg, s) && Quiet(cfg, filtered, s) && HasType(result, cfg.result)
    ensures Over(cfg, filtered, s)
  {
    hide Rpc.Inv, Rpc.Project, Able, Stuck;
    if Rpc.Busy(s.server) {
      var c, a := ServerMoves(cfg, filtered, s, result);
    }
    forall d | d in s.clients && d in s.done
      ensures s.clients[d].Idle? || (filtered && Stuck(Rpc.Project(cfg, s, d)))
    {
      if !(s.clients[d].Idle? || (filtered && Stuck(Rpc.Project(cfg, s, d)))) {
        var c, a := SomebodyMoves(cfg, filtered, s, d, result);
      }
    }
  }

  /** And it always comes to that: whatever the state, a run leads there. */
  lemma {:induction false} Completes(cfg: Config, filtered: bool, s: Rpc.Sys, result: Value)
      returns (es: seq<(nat, Act)>, s': Rpc.Sys)
    requires Rpc.Inv(cfg, s) && HasType(result, cfg.result)
    ensures Runs(cfg, filtered, s, es, s') && NoBegin(es) && Rpc.Inv(cfg, s') && Over(cfg, filtered, s')
    ensures forall i :: 0 <= i < |es| && es[i].1.ServerHandle? ==> es[i].1.result == result
    decreases Total(cfg, s, |Serialize(result)|)
  {
    hide Rpc.Inv, Able, Total, Serialize, Stuck, Rpc.Project;
    TotalIsNat(cfg, s, |Serialize(result)|);
    es, s' := [], s;
    if !Over(cfg, filtered, s) {
      var c, a;
      if Rpc.Busy(s.server) {
        c, a := ServerMoves(cfg, filtered, s, result);
      } else {
        var d :| d in s.clients && d in s.done && !(s.clients[d].Idle? || (filtered && Stuck(Rpc.Project(cfg, s, d))));
        c, a := SomebodyMoves(cfg, filtered, s, d, result);
      }
      AbleSteps(cfg, filtered, s, c, a);
      var t := Rpc.Do(cfg, s, c, a);
      StepFalls(cfg, s, c, a, t, |Serialize(result)|);
      es, s' := Completes(cfg, filtered, t, result);
      RunsMore(cfg, filtered, s, c, a, t, es, s');
      es := [(c, a)] + es;
    }
  }

  lemma AbleSteps(cfg: Config, filtered: bool, s: Rpc.Sys, c: nat, a: Act)
    requires Able(cfg, filtered, s, c, a)
    ensures Rpc.Can(cfg, s, c, a) && Step(cfg, filtered, s, c, a, Rpc.Do(cfg, s, c, a))
  {}

  lemma {:induction false} RunsMore(cfg: Config, filtered: bool, s: Rpc.Sys, c: nat, a: Act, t: Rpc.Sys,
                                    es: seq<(nat, Act)>, s': Rpc.Sys)
    requires Step(cfg, filtered, s, c, a, t) && Runs(cfg, filtered, t, es, s')
    ensures Runs(cfg, filtered, s, [(c, a)] + es, s')
  {
    hide Step;
    assert ([(c, a)] + es)[1..] == es;
  }

  // ---------- Every call returns ----------

  function Default(t: Ty): (v: Value)
    ensures HasType(v, t)
  {
    match t
    case Fund(n) => FundV(seq(n, _ => 0))
    case Str => StrV([])
    case Vec(_) => VecV([])
  }

  lemma StepGoesOn(cfg: Config, s: Rpc.Sys, c: nat, a: Act, s': Rpc.Sys, d: nat)
    requires Rpc.Inv(cfg, s) && Rpc.Next(cfg, s, c, a, s') && !a.Begin? && d in s.clients && d in s.done
    ensures Rpc.Inv(cfg, s') && d in s'.clients && d in s'.done
    ensures GoesOn(Rpc.Project(cfg, s, d), Rpc.Project(cfg, s', d))
  {
    hide Rpc.Project, ViewOk, Rpc.Shape, Rpc.Do, RpcLocal.Do, RpcLocal.Can;
    Rpc.NextKeepsInv(cfg, s, c, a, s');
    Rpc.Simulates(cfg, s, c, a, s');
    ActGoesOn(cfg, c, Rpc.Project(cfg, s, c), a);
  }

  lemma {:induction false} RunGoesOn(cfg: Config, filtered: bool, s: Rpc.Sys, es: seq<(nat, Act)>, s': Rpc.Sys, d: nat)
    requires Rpc.Inv(cfg, s) && Runs(cfg, filtered, s, es, s') && NoBegin(es) && d in s.clients && d in s.done
    ensures Rpc.Inv(cfg, s') && d in s'.clients && d in s'.done
    ensures GoesOn(Rpc.Project(cfg, s, d), Rpc.Project(cfg, s', d))
    decreases |es|
  {
    hide Rpc.Inv, Rpc.Can, Rpc.Do, Rpc.Project;
    if es == [] {
      hide GoesOn;
      StaysOn(cfg, s, d);
    } else {
      var c, a := es[0].0, es[0].1;
      var t :| Step(cfg, filtered, s, c, a, t) && Runs(cfg, filtered, t, es[1..], s');
      StepGoesOn(cfg, s, c, a, t, d);
      RunGoesOn(cfg, filtered, t, es[1..], s', d);
      GoesOnFurther(Rpc.Project(cfg, s, d), Rpc.Project(cfg, t, d), Rpc.Project(cfg, s', d));
    }
  }

  lemma StaysOn(cfg: Config, s: Rpc.Sys, d: nat)
    requires d in s.clients && d in s.done
    ensures GoesOn(Rpc.Project(cfg, s, d), Rpc.Project(cfg, s, d))
  {}

  /** From every reachable state, under every schedule: only so many steps can be taken before
      another call begins, and when no more can be taken, every call that was in progress has
      returned, with what the procedure gave for its arguments. */
  lemma {:induction false} EveryCallReturns(cfg: Config, s0: Rpc.Sys, es0: seq<(nat, Act)>, s: Rpc.Sys,
                                            es: seq<(nat, Act)>, s': Rpc.Sys, b: nat, c: nat)
    requires ConfigOk(cfg) && Rpc.Initial(cfg, s0) && Rpc.Runs(cfg, s0, es0, s)
    requires Runs(cfg, false, s, es, s') && NoBegin(es) && Bounded(es, b) && c in s.clients && c in s.done
    ensures |es| <= Total(cfg, s, b)
    ensures Quiet(cfg, false, s') ==>
              && !Rpc.Busy(s'.server) && c in s'.clients && c in s'.done && s'.clients[c].Idle?
              && Rpc.CallsOf(s'.log, c) == s'.done[c]
              && (InCall(s.clients[c]) ==>
                    && |s'.done[c]| == |s.done[c]| + 1 && s'.done[c][..|s.done[c]|] == s.done[c]
                    && s'.done[c][|s.done[c]|].0 == Args(s.clients[c]))
  {
    hide Rpc.Inv, Runs, Rpc.Runs, Rpc.Initial, Total, Bounded, Able, Quiet, Stuck, ViewOk;
    Rpc.InitialInv(cfg, s0);
    Rpc.RunKeepsInv(cfg, s0, es0, s);
    RunIsBounded(cfg, false, s, es, s', b);
    RunGoesOn(cfg, false, s, es, s', c);
    if Quiet(cfg, false, s') {
      QuietIsOver(cfg, false, s', Default(cfg.result));
      IdleIsDone(cfg, s', c);
    }
  }

  lemma {:induction false} IdleIsDone(cfg: Config, s: Rpc.Sys, c: nat)
    requires Rpc.Inv(cfg, s) && c in s.clients && c in s.done && s.clients[c].Idle?
    ensures Rpc.CallsOf(s.log, c) == s.done[c]
  {
    Rpc.ViewCalls(cfg, c, Rpc.Project(cfg, s, c));
  }

  // ---------- Behind the filter ----------

  ghost predicate FilteredFits(cfg: Config, s: Rpc.Sys) {
    forall c :: c in s.clients && c in s.done ==>
      OneReply(Rpc.Project(cfg, s, c)) && DoneFits(cfg, Rpc.Project(cfg, s, c))
  }

  lemma FilteredStep(cfg: Config, s: Rpc.Sys, c: nat, a: Act, s': Rpc.Sys)
    requires Rpc.Inv(cfg, s) && FilteredFits(cfg, s) && Step(cfg, true, s, c, a, s')
    ensures Rpc.Inv(cfg, s') && FilteredFits(cfg, s')
  {
    hide Rpc.Project, ViewOk, Rpc.Shape, Rpc.Do, RpcLocal.Do, RpcLocal.Can, OneReply, DoneFits, Seen;
    Rpc.NextKeepsInv(cfg, s, c, a, s');
    Rpc.Simulates(cfg, s, c, a, s');
    var v := Rpc.Project(cfg, s, c);
    OneReplyKept(cfg, c, v, a);
    DoneFitsKept(cfg, c, v, a);
  }

  lemma {:induction false} FilteredRun(cfg: Config, s: Rpc.Sys, es: seq<(nat, Act)>, s': Rpc.Sys)
    requires Rpc.Inv(cfg, s) && FilteredFits(cfg, s) && Runs(cfg, true, s, es, s')
    ensures Rpc.Inv(cfg, s') && FilteredFits(cfg, s')
    decreases |es|
  {
    hide Rpc.Inv, FilteredFits, Step;
    if es != [] {
      var t :| Step(cfg, true, s, es[0].0, es[0].1, t) && Runs(cfg, true, t, es[1..], s');
      FilteredStep(cfg, s, es[0].0, es[0].1, t);
      FilteredRun(cfg, t, es[1..], s');
    }
  }

  lemma InitialFiltered(cfg: Config, s: Rpc.Sys)
    requires Rpc.Initial(cfg, s)
    ensures FilteredFits(cfg, s)
  {}

  /** Behind the filter, from every state reached so and under every schedule: when no more
      steps can be taken, the procedure has been called for every call that was in progress,
      and that call has returned exactly if its result fits one message. */
  lemma {:induction false} ReturnsIffFits(cfg: Config, s0: Rpc.Sys, es0: seq<(nat, Act)>, s: Rpc.Sys,
                                          es: seq<(nat, Act)>, s': Rpc.Sys, c: nat)
    requires ConfigOk(cfg) && Rpc.Initial(cfg, s0) && Runs(cfg, true, s0, es0, s)
    requires Runs(cfg, true, s, es, s') && NoBegin(es) && Quiet(cfg, true, s')
    requires c in s.clients && c in s.done && InCall(s.clients[c])
    ensures c in s'.clients && c in s'.done
    ensures var calls, n := Rpc.CallsOf(s'.log, c), |s.done[c]|;
            && |calls| == n + 1 && HasType(calls[n].1, cfg.result)
            && (s'.clients[c].Idle? <==> |Serialize(calls[n].1)| <= 4096)
            && s'.done[c] == (if s'.clients[c].Idle? then calls else s.done[c])
  {
    hide Rpc.Inv, Runs, Rpc.Initial, Able, Quiet, Stuck, ViewOk, OneReply, DoneFits, Serialize, HasType, FilteredFits;
    Rpc.InitialInv(cfg, s0);
    InitialFiltered(cfg, s0);
    FilteredRun(cfg, s0, es0, s);
    FilteredRun(cfg, s, es, s');
    RunGoesOn(cfg, true, s, es, s', c);
    QuietIsOver(cfg, true, s', Default(cfg.result));
    if s'.clients[c].Idle? {
      IdleIsDone(cfg, s', c);
      DoneFit(cfg, s', c, |s.done[c]|);
    } else {
      StuckResult(cfg, s', c);
    }
  }

  lemma DoneFit(cfg: Config, s: Rpc.Sys, c: nat, k: nat)
    requires FilteredFits(cfg, s) && c in s.clients && c in s.done && k < |s.done[c]|
    ensures HasType(s.done[c][k].1, cfg.result) && |Serialize(s.done[c][k].1)| <= CHUNK
  {
    assert DoneFits(cfg, Rpc.Project(cfg, s, c));
  }

  lemma {:induction false} StuckResult(cfg: Config, s: Rpc.Sys, c: nat)
    requires Rpc.Inv(cfg, s) && FilteredFits(cfg, s) && c in s.clients && c in s.done && Stuck(Rpc.Project(cfg, s, c))
    ensures var calls, n := Rpc.CallsOf(s.log, c), |s.done[c]|;
            |calls| == n + 1 && HasType(calls[n].1, cfg.result) && |Serialize(calls[n].1)| > CHUNK
  {
    hide ViewOk, OneReply, HasType;
    ReplyWaits(cfg, c, Rpc.Project(cfg, s, c));
    assert OneReply(Rpc.Project(cfg, s, c));
  }

  /** One client, 2, that has not called yet, and the server, 1. */
  function Alone(): Rpc.Sys {
    Rpc.Sys(Messaging.State(Kernel([], 0, [], map[], {1, 2}), map[]), map[2 := Idle], Ready,
            map[], map[], map[], [], map[2 := []])
  }

  lemma AloneIsInitial(cfg: Config)
    requires ConfigOk(cfg) && cfg.server == 1
    ensures Rpc.Initial(cfg, Alone()) && Rpc.Inv(cfg, Alone())
  {
    Rpc.InitialInv(cfg, Alone());
  }

  lemma {:induction false} Begins(cfg: Config) returns (s: Rpc.Sys)
    requires ConfigOk(cfg) && cfg.server == 1 && cfg.params == []
    ensures Step(cfg, true, Alone(), 2, Begin([]), s) && Runs(cfg, true, Alone(), [(2, Begin([]))], s)
    ensures Rpc.Inv(cfg, s) && 2 in s.clients && 2 in s.done && InCall(s.clients[2])
  {
    var s0 := Alone();
    AloneIsInitial(cfg);
    assert Wire([]) == [] && Last([]) == 0;
    assert Able(cfg, true, s0, 2, Begin([]));
    s := Rpc.Do(cfg, s0, 2, Begin([]));
    Rpc.NextKeepsInv(cfg, s0, 2, Begin([]), s);
    hide Step;
    assert Runs(cfg, true, s, [], s);
    RunsMore(cfg, true, s0, 2, Begin([]), s, [], s);
  }

  /** Every call logged so far gave that result. */
  predicate AllGave(log: seq<(nat, Call)>, result: Value) {
    forall k :: 0 <= k < |log| ==> log[k].1.1 == result
  }

  lemma HandleGives(cfg: Config, s: Rpc.Sys, result: Value)
    requires s.server.Handling? && AllGave(s.log, result)
    ensures AllGave(Rpc.HandleMessage(cfg, s, result).log, result)
  {
    hide Serialize, DeserializeAll, Content, AllGave;
    var log := Rpc.HandleMessage(cfg, s, result).log;
    if log != s.log {
      assert log == s.log + [log[|s.log|]] && log[|s.log|].1.1 == result;
      OneMoreGave(s.log, log[|s.log|], result);
    }
  }

  lemma OneMoreGave(log: seq<(nat, Call)>, x: (nat, Call), result: Value)
    requires AllGave(log, result) && x.1.1 == result
    ensures AllGave(log + [x], result)
  {}

  lemma StepGives(cfg: Config, s: Rpc.Sys, c: nat, a: Act, s': Rpc.Sys, result: Value)
    requires Rpc.Next(cfg, s, c, a, s') && AllGave(s.log, result) && (a.ServerHandle? ==> a.result == result)
    ensures AllGave(s'.log, result)
  {
    hide Rpc.HandleMessage, Rpc.Between, Rpc.Owned, Rpc.CallsOf, AllGave, AfterSend, AfterAck, RpcLocal.Do, Rpc.Kernel,
         Outgoing, ReplyMsg, Tail, Wire, Last, Messaging.Enabled;
    if a.ServerHandle? { HandleGives(cfg, s, result); } else { assert s'.log == s.log; }
  }

  lemma {:induction false} RunGives(cfg: Config, filtered: bool, s: Rpc.Sys, es: seq<(nat, Act)>, s': Rpc.Sys, result: Value)
    requires Runs(cfg, filtered, s, es, s') && AllGave(s.log, result)
    requires forall i :: 0 <= i < |es| && es[i].1.ServerHandle? ==> es[i].1.result == result
    ensures AllGave(s'.log, result)
    decreases |es|
  {
    hide AllGave, Rpc.Can, Rpc.Do;
    if es != [] {
      var c, a := es[0].0, es[0].1;
      var t :| Step(cfg, filtered, s, c, a, t) && Runs(cfg, filtered, t, es[1..], s');
      StepGives(cfg, s, c, a, t, result);
      RunGives(cfg, filtered, t, es[1..], s', result);
    }
  }

  lemma {:induction false} CallsGave(log: seq<(nat, Call)>, result: Value, c: nat)
    requires AllGave(log, result)
    ensures forall k :: 0 <= k < |Rpc.CallsOf(log, c)| ==> Rpc.CallsOf(log, c)[k].1 == result
  {
    if log != [] { CallsGave(log[..|log| - 1], result, c); }
  }

  /** A procedure without parameters that gives any result longer than one message, behind the
      filter: a run of the system ends with its caller waiting and nothing left that can
      happen. */
  lemma LongResultHangs(cfg: Config, result: Value) returns (es: seq<(nat, Act)>, s: Rpc.Sys)
    requires ConfigOk(cfg) && cfg.server == 1 && cfg.params == []
    requires HasType(result, cfg.result) && |Serialize(result)| > 4096
    ensures Rpc.Initial(cfg, Alone()) && Runs(cfg, true, Alone(), es, s) && Quiet(cfg, true, s)
    ensures 2 in s.clients && InCall(s.clients[2])
  {
    hide Runs, Quiet, Rpc.Inv, Over, Step, Rpc.Initial, Serialize, HasType, Rpc.CallsOf;
    AloneIsInitial(cfg);
    var s1 := Begins(cfg);
    var more;
    more, s := Completes(cfg, true, s1, result);
    OverIsQuiet(cfg, true, s);
    RunsMore(cfg, true, Alone(), 2, Begin([]), s1, more, s);
    es := [(2, Begin([]))] + more;
    ReturnsIffFits(cfg, Alone(), [(2, Begin([]))], s1, more, s, 2);
    RunGoesOn(cfg, true, s1, more, s, 2);
    RunGives(cfg, true, Alone(), es, s, result);
    CallsGave(s.log, result, 2);
  }

  /** Such as a string of 4093 characters, which takes 4097 bytes. */
  lemma LongStringHangs() returns (cfg: Config, es: seq<(nat, Act)>, s: Rpc.Sys)
    ensures cfg.result == Str && ConfigOk(cfg) && Rpc.Initial(cfg, Alone())
    ensures Runs(cfg, true, Alone(), es, s) && Quiet(cfg, true, s) && 2 in s.clients && InCall(s.clients[2])
  {
    cfg := Config(1, 0, [], Str);
    es, s := LongResultHangs(cfg, StrV(seq(4093, _ => 0)));
  }
}
