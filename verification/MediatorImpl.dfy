/** The mediator object itself: its fields, and its methods with their loops, each proved to do
    what the specification of the operation says. */
module MediatorImpl {
  import opened Mediator
  import opened MediatorBinds
  import opened Wrappers

  class POAMediator {
    const forward: bool
    var svmap: map<Svid, SvInf>
    var requests: map<MsgId, ReqId>
    var invokes: seq<QueueRec>        // the records of invqueue
    var scheduled: bool
    // the environment's counters and what it has been told
    var nextMsg: MsgId
    var nextPid: Pid
    var sent: map<MsgId, Message>
    var answers: seq<Answer>
    var launches: seq<Launch>
    ghost var cancelled: multiset<ReqId>
    ghost var lost: seq<QueueRec>

    constructor (forward: bool)
      ensures Abs() == State(forward, Servers(map[], 0, []), map[], 0, map[], [], false, [], multiset{}, [])
      ensures Abs().Valid()
    {
      this.forward := forward;
      svmap, requests, invokes, scheduled := map[], map[], [], false;
      nextMsg, nextPid, sent, answers, launches := 0, 0, map[], [], [];
      cancelled, lost := multiset{}, [];
    }

    ghost function Abs(): State
      reads this
    {
      State(forward, Servers(svmap, nextPid, launches), requests, nextMsg, sent, invokes, scheduled, answers,
          cancelled, lost)
    }

    ghost function Srv(): Servers
      reads this
    {
      Servers(svmap, nextPid, launches)
    }

    /** The access svmap[svid] of std::map. */
    method Entry(svid: Svid) returns (inf: SvInf)
      modifies this`svmap
      ensures inf == old(Srv()).Inf(svid) && Srv() == old(Srv()).Put(svid, inf)
    {
      inf := if svid in svmap then svmap[svid] else FreshInf;
      svmap := svmap[svid := inf];
    }

    method CreateServer(svid: Svid, env: Env) returns (ok: bool)
      requires Srv().Inf(svid).pstate != Holding && Srv().Inf(svid).pstate != Stopped
      modifies this`svmap, this`nextPid, this`launches
      ensures (Srv(), ok) == Mediator.CreateServer(old(Srv()), svid, env)
    {
      var inf := Entry(svid);
      if inf.pstate == Started || inf.pstate == Active { return true; }
      if inf.pstate == Failed {
        if env.now - inf.failed < 30 { return false; }
        PutTwice(old(Srv()), svid, inf, inf.(pstate := Inactive));
        inf := inf.(pstate := Inactive);
        svmap := svmap[svid := inf];
      }
      if svid !in env.commands { return false; }
      if env.commands[svid] == "" { return false; }
      inf := inf.(pstate := Started, proc := Some(nextPid));
      svmap := svmap[svid := inf];
      launches := launches + [Launch(svid, nextPid, env.now)];
      nextPid := nextPid + 1;
      ok := env.forkOk;
      assert svmap == old(svmap)[svid := inf];
    }

    method ExecLater()
      modifies this`scheduled
      ensures Abs() == Mediator.ExecLater(old(Abs()))
    {
      if |invokes| > 0 { scheduled := true; }
    }

    method CreateImpl(svid: Svid, ior: string)
      modifies this`svmap
      ensures Abs() == old(Abs()).(servers := Mediator.CreateImpl(old(Srv()), svid, ior))
    {
      var inf := Entry(svid);
      svmap := svmap[svid := inf.(ior := ior)];
    }

    method HasObject(svid: Svid, known: bool) returns (has: bool)
      modifies this`svmap
      ensures Abs() == old(Abs()).(servers := Mediator.HasObject(old(Srv()), svid, known))
      ensures has <==> svid in old(svmap) || known
    {
      if svid !in svmap {
        if !known { return false; }
        var inf := Entry(svid);
        svmap := svmap[svid := inf.(pstate := Inactive)];
      }
      has := true;
    }

    method ActivateImpl(svid: Svid)
      modifies this`svmap, this`scheduled
      ensures Abs() == After(old(Abs()), Mediator.ActivateImpl(old(Srv()), svid))
    {
      hide Mediator.ExecLater;
      var inf := Entry(svid);
      if inf.pstate == Stopped || inf.pstate == Holding { return; }
      PutTwice(old(Srv()), svid, inf, inf.(pstate := Active));
      svmap := svmap[svid := inf.(pstate := Active)];
      ExecLater();
    }

    method DeactivateImpl(svid: Svid)
      requires var inf := Srv().Inf(svid);
               inf.pstate == Stopped || (inf.proc.Some? && (inf.pstate == Active || inf.pstate == Holding))
      modifies this`svmap
      ensures Abs() == old(Abs()).(servers := Mediator.DeactivateImpl(old(Srv()), svid))
    {
      var inf := Entry(svid);
      if inf.pstate == Active {
        inf := inf.(pstate := Inactive);
      } else if inf.pstate == Holding {
        inf := inf.(pstate := Stopped);
      }
      if inf.proc.Some? { inf := inf.(proc := None); }
      svmap := svmap[svid := inf];
    }

    method ForceActivation(svid: Svid, env: Env) returns (ok: bool)
      modifies this`svmap, this`nextPid, this`launches
      ensures (Srv(), ok) == Mediator.ForceActivation(old(Srv()), svid, env)
    {
      var inf := Entry(svid);
      PutTwice(old(Srv()), svid, inf, inf.(pstate := Active));
      PutTwice(old(Srv()), svid, inf, inf.(pstate := Inactive));
      match inf.pstate {
        case Inactive => CreateAfterEntry(old(Srv()), svid, env);
        case Started => return true;
        case Active => return true;
        case Holding =>
          svmap := svmap[svid := inf.(pstate := Active)];
          return true;
        case Stopped =>
          if inf.proc.Some? { return false; }
          svmap := svmap[svid := inf.(pstate := Inactive)];
        case Failed =>
          svmap := svmap[svid := inf.(pstate := Inactive)];
      }
      ok := CreateServer(svid, env);
    }

    method Hold(svid: Svid) returns (ok: bool)
      modifies this`svmap
      ensures ok && Abs() == old(Abs()).(servers := Mediator.Hold(old(Srv()), svid))
    {
      var inf := Entry(svid);
      if inf.pstate != Stopped { svmap := svmap[svid := inf.(pstate := Holding)]; }
      ok := true;
    }

    /** The state change and the signal of stop; the wait for the exit is the environment's. */
    method Stop(svid: Svid) returns (signalled: Option<Pid>)
      requires var inf := Srv().Inf(svid);
               inf.proc.Some? || inf.pstate == Inactive || inf.pstate == Failed || inf.pstate == Stopped
      modifies this`svmap
      ensures Abs() == old(Abs()).(servers := Mediator.Stop(old(Srv()), svid))
      ensures signalled == if old(Srv()).Inf(svid).pstate in {Started, Active, Holding}
          then old(Srv()).Inf(svid).proc else None
    {
      var inf := Entry(svid);
      svmap := svmap[svid := inf.(pstate := Stopped)];
      signalled := None;
      if inf.pstate == Started || inf.pstate == Active || inf.pstate == Holding { signalled := inf.proc; }
    }

    method Continue(svid: Svid)
      modifies this`svmap, this`scheduled
      ensures Abs() == After(old(Abs()), Mediator.Continue(old(Srv()), svid))
    {
      hide Mediator.ExecLater;
      var inf := Entry(svid);
      if inf.pstate == Inactive || inf.pstate == Started || inf.pstate == Active { return; }
      PutTwice(old(Srv()), svid, inf, inf.(pstate := Inactive));
      svmap := svmap[svid := inf.(pstate := Inactive)];
      ExecLater();
    }

    method Invoke(id: ReqId, svid: Svid, twoWay: bool, env: Env)
      modifies this
      ensures Abs() == Mediator.Invoke(old(Abs()), id, svid, twoWay, env)
    {
      hide Mediator.Invoke, Mediator.CreateServer;
      InvokeCases(Abs(), id, svid, twoWay, env);
      if svid !in svmap {
        answers := answers + [InvokeAnswer(id, SysEx)];
        return;
      }
      if svmap[svid].pstate == Stopped || svmap[svid].pstate == Holding {
        invokes := invokes + [InvokeRec(id, svid, twoWay)];
        return;
      }
      if svmap[svid].pstate != Active {
        var ok := CreateServer(svid, env);
        if !ok {
          answers := answers + [InvokeAnswer(id, SysEx)];
          return;
        }
        invokes := invokes + [InvokeRec(id, svid, twoWay)];
        return;
      }
      if twoWay && forward {
        answers := answers + [InvokeAnswer(id, Forward(svmap[svid].ior))];
        return;
      }
      InvokeAsync(id, twoWay);
    }

    /** Allocate a message id for the invocation and send it. */
    method InvokeAsync(id: ReqId, twoWay: bool)
      modifies this`nextMsg, this`requests, this`sent
      ensures Abs() == Send(old(Abs()), id, twoWay)
    {
      var orbid := nextMsg;
      nextMsg := nextMsg + 1;
      if twoWay { requests := requests[orbid := id]; }
      sent := sent[orbid := InvokeMsg];
    }

    /** Search for an outstanding slot of the request, in the order of the map. */
    method FindSlot(id: ReqId) returns (found: bool, slot: MsgId)
      ensures found <==> Abs().Slots(id) != {}
      ensures found ==> slot in requests && requests[slot] == id
    {
      var todo := requests.Keys;
      slot := 0;
      while todo != {}
        invariant todo <= requests.Keys
        invariant forall m :: m in requests && m !in todo ==> requests[m] != id
        decreases |todo|
      {
        var m :| m in todo;
        if requests[m] == id {
          assert m in Abs().Slots(id);
          return true, m;
        }
        todo := todo - {m};
      }
      found := false;
    }

    /** Erase the slots of a request one by one, starting over after each. */
    method Cancel(id: ReqId)
      modifies this`requests, this`cancelled
      ensures Abs() == Mediator.Cancel(old(Abs()), id)
    {
      var again := true;
      ghost var n := |SlotsIn(requests, id)|;
      while again
        invariant Without(requests, id) == Without(old(requests), id)
        invariant n + cancelled[id] == |SlotsIn(old(requests), id)| + old(cancelled)[id]
        invariant n == |SlotsIn(requests, id)| && cancelled == old(cancelled)[id := cancelled[id]]
        invariant !again ==> SlotsIn(requests, id) == {}
        decreases n, again
      {
        again := false;
        var found, m := FindSlot(id);
        if found {
          EraseOne(requests, m, id);
          requests := requests - {m};
          cancelled := cancelled[id := cancelled[id] + 1];
          n := n - 1;
          again := true;
        }
      }
      NothingLeft(requests, id);
    }

    method NotifyInvoke(id: MsgId, status: InvokeStatus)
      requires id in requests
      modifies this`requests, this`answers
      ensures Abs() == Mediator.NotifyInvoke(old(Abs()), id, status)
    {
      answers := answers + [InvokeAnswer(requests[id], status)];
      requests := requests - {id};
    }

    method NotifyBind(id: MsgId, stat: LocateStatus)
      modifies this`requests, this`answers, this`cancelled
      ensures Abs() == Mediator.NotifyBind(old(Abs()), id, stat)
    {
      if id !in requests { return; }
      var id2 := requests[id];
      requests := requests - {id};
      if stat == LocateHere {
        answers := answers + [BindAnswer(id2, stat)];
        Cancel(id2);
      } else {
        var more, _ := FindSlot(id2);
        if !more { answers := answers + [BindAnswer(id2, stat)]; }
      }
    }

    /** Start the servers of a bind that are not running, in order. */
    method StartServers(names: seq<Svid>, env: Env) returns (ready: Readiness)
      modifies this`svmap, this`nextPid, this`launches
      ensures (Srv(), ready) == StartAll(old(Srv()), names, env, AllUp)
    {
      ready := AllUp;
      var i := 0;
      while i < |names|
        invariant 0 <= i <= |names| && ready != Refused
        invariant StartAll(Srv(), names[i..], env, ready) == StartAll(old(Srv()), names, env, AllUp)
      {
        assert names[i..][0] == names[i] && names[i..][1..] == names[i + 1..];
        ghost var before := Srv();
        var inf := Entry(names[i]);
        if inf.pstate != Active && inf.pstate != Stopped && inf.pstate != Holding {
          CreateAfterEntry(before, names[i], env);
          var ok := CreateServer(names[i], env);
          if !ok { return Refused; }
          ready := Waiting;
        }
        i := i + 1;
      }
    }

    /** The servers in the order in which the map is iterated. */
    method Order() returns (order: seq<Svid>)
      ensures IsOrder(order, svmap)
    {
      order := [];
      var todo := svmap.Keys;
      while todo != {}
        invariant todo <= svmap.Keys
        invariant forall i, j :: 0 <= i < j < |order| ==> order[i] != order[j]
        invariant forall v :: v in svmap <==> v in order || v in todo
        invariant forall v :: v in order ==> v !in todo
        decreases |todo|
      {
        var v :| v in todo;
        todo := todo - {v};
        order := order + [v];
      }
    }

    /** First loop of the broadcast: a slot for every Active server. */
    method AllocateSlots(id: ReqId, order: seq<Svid>) returns (msgids: seq<MsgId>)
      requires IsOrder(order, svmap)
      modifies this`requests, this`sent, this`nextMsg
      ensures Abs() == Broadcast(old(Abs()), id)
      ensures |msgids| == |ActiveOf(svmap, order, |order|)|
      ensures forall i :: 0 <= i < |msgids| ==> msgids[i] == old(nextMsg) + i
    {
      msgids := [];
      var it := 0;
      while it < |order|
        invariant 0 <= it <= |order| && |msgids| == |ActiveOf(svmap, order, it)|
        invariant nextMsg == old(nextMsg) + |msgids|
        invariant requests == WithMany(old(requests), old(nextMsg), |msgids|, id)
        invariant sent == WithMany(old(sent), old(nextMsg), |msgids|, BindMsg)
        invariant forall i :: 0 <= i < |msgids| ==> msgids[i] == old(nextMsg) + i
      {
        if svmap[order[it]].pstate == Active {
          msgids := msgids + [nextMsg];
          requests := requests[nextMsg := id];
          sent := sent[nextMsg := BindMsg];
          nextMsg := nextMsg + 1;
        }
        it := it + 1;
      }
      ActiveOfAll(svmap, order);
    }

    /** Second loop: send to the Active servers, the last slot first; sends lists the messages
        in order. A server's reply, or any other bind reply, may arrive while the loop is still
        sending: early[k] are the replies that come in during the k-th send. */
    method SendBinds(msgids: seq<MsgId>, order: seq<Svid>, early: seq<seq<BindReply>>)
        returns (sends: seq<(MsgId, Svid)>)
      requires IsOrder(order, svmap) && |msgids| == |ActiveOf(svmap, order, |order|)|
      modifies this`requests, this`answers, this`cancelled
      ensures Abs() == NotifyAll(old(Abs()), Flatten(early, |msgids|))
      ensures sends == Addressed(msgids, ActiveOf(svmap, order, |order|), |msgids|)
    {
      ghost var s0 := Abs();
      var it := 0;
      sends := [];
      NothingSent(s0, order, msgids, early);
      while it < |order|
        invariant it <= |order| && SentSoFar(s0, Abs(), order, it, msgids, early, sends)
      {
        sends := SendNext(s0, msgids, order, it, early, sends);
        it := it + 1;
      }
    }

    /** One round of the loop: nothing for a server that is not Active. */
    method SendNext(ghost s0: State, msgids: seq<MsgId>, order: seq<Svid>, it: nat, early: seq<seq<BindReply>>,
                    sends: seq<(MsgId, Svid)>)
        returns (r: seq<(MsgId, Svid)>)
      requires it < |order| && order[it] in svmap && SentSoFar(s0, Abs(), order, it, msgids, early, sends)
      modifies this`requests, this`answers, this`cancelled
      ensures SentSoFar(s0, Abs(), order, it + 1, msgids, early, r)
    {
      r := sends;
      if svmap[order[it]].pstate == Active {
        NextAddressed(msgids, svmap, order, it, |sends|);
        BindAsync(s0, early, |sends|);
        r := sends + [(msgids[|msgids| - 1 - |sends|], order[it])];
      }
    }

    /** The k-th call of bind_async: replies may come in before it returns. */
    method BindAsync(ghost s0: State, early: seq<seq<BindReply>>, k: nat)
      requires Abs() == NotifyAll(s0, Flatten(early, k))
      modifies this`requests, this`answers, this`cancelled
      ensures Abs() == NotifyAll(s0, Flatten(early, k + 1))
    {
      NotifyAllAppend(s0, Flatten(early, k), Batch(early, k));
      ReceiveReplies(Batch(early, k));
    }

    /** Bind replies delivered one after the other. */
    method ReceiveReplies(replies: seq<BindReply>)
      modifies this`requests, this`answers, this`cancelled
      ensures Abs() == NotifyAll(old(Abs()), replies)
    {
      var i := 0;
      while i < |replies|
        invariant 0 <= i <= |replies|
        invariant Abs() == NotifyAll(old(Abs()), replies[..i])
        invariant Abs() == old(Abs()).(requests := requests, answers := answers, cancelled := cancelled)
      {
        assert replies[..i + 1][..i] == replies[..i];
        NotifyBind(replies[i].0, replies[i].1);
        i := i + 1;
      }
      assert replies[..i] == replies;
    }

    /** A bind, with the replies that arrive before it returns. */
    method Bind(id: ReqId, repoid: string, tag: string, env: Env, early: seq<seq<BindReply>>) returns (handled: bool)
      modifies this
      ensures var (s, h) := Mediator.Bind(old(Abs()), id, repoid, tag, env);
              && handled == h
              && exists n :: Abs() == NotifyAll(s, Flatten(early, n))
      ensures early == [] ==> Abs() == Mediator.Bind(old(Abs()), id, repoid, tag, env).0
    {
      var names := env.Serving(repoid, tag);
      var ready := StartServers(names, env);
      assert Flatten(early, 0) == [];
      if ready == Refused {
        answers := answers + [BindAnswer(id, LocateUnknown)];
        assert Abs() == NotifyAll(Abs(), Flatten(early, 0));
        return true;
      }
      if |names| == 0 {
        assert Abs() == old(Abs());
        assert Abs() == NotifyAll(Abs(), Flatten(early, 0));
        return false;
      }
      if ready == Waiting {
        invokes := invokes + [BindRec(id, repoid, tag)];
        assert Abs() == NotifyAll(Abs(), Flatten(early, 0));
        return true;
      }
      var order := Order();
      var msgids := AllocateSlots(id, order);
      var sends := SendBinds(msgids, order, early);
      if early == [] { FlattenNothing(|msgids|); }
      handled := true;
    }

    /** ReqQueueRec::exec. */
    method Exec(r: QueueRec, env: Env)
      modifies this
      ensures Abs() == Mediator.Exec(old(Abs()), r, env)
    {
      match r
      case InvokeRec(id, svid, twoWay) => Invoke(id, svid, twoWay, env);
      case BindRec(id, repoid, tag) =>
        var handled := Bind(id, repoid, tag, env, []);
        if !handled { answers := answers + [BindAnswer(id, LocateUnknown)]; }
    }

    /** RequestQueue::exec_now, run when the timer fires. */
    method ExecNow(env: Env)
      modifies this
      ensures Abs() == Mediator.ExecNow(old(Abs()), env)
    {
      scheduled := false;
      var seen: set<ReqId> := {};
      while |invokes| > 0
        invariant ExecPass(Abs(), seen, env) == Mediator.ExecNow(old(Abs()), env)
        decreases Unseen(invokes, seen), |invokes|
      {
        ghost var before := Abs();
        var inv := invokes[0];
        invokes := invokes[1..];
        if inv.id in seen {
          lost := lost + [inv];
          continue;
        }
        ghost var rest := Abs();
        assert rest == before.(queue := before.queue[1..]);
        ExecQueue(rest, inv, env);
        UnseenShrinks(rest.queue, seen, inv.id);
        UnseenAppend(rest.queue, inv, seen + {inv.id});
        seen := seen + {inv.id};
        Exec(inv, env);
        assert Abs().queue == rest.queue || Abs().queue == rest.queue + [inv];
      }
    }

    /** shutdown: fail what is still queued. */
    method Shutdown()
      modifies this`invokes, this`answers
      ensures Abs() == FailAll(old(Abs()))
    {
      while |invokes| > 0
        invariant answers + FailAnswers(invokes) == old(answers) + FailAnswers(old(invokes))
        decreases |invokes|
      {
        var failed := if invokes[0].InvokeRec?
            then InvokeAnswer(invokes[0].id, SysEx) else BindAnswer(invokes[0].id, LocateUnknown);
        assert answers + ([failed] + FailAnswers(invokes[1..])) == answers + [failed] + FailAnswers(invokes[1..]);
        answers := answers + [failed];
        invokes := invokes[1..];
      }
    }

    /** The callback of a process that has exited: find its server and change its state. */
    method ProcessExited(proc: Pid, now: int) returns (v: Svid)
      requires exists u :: u in svmap && svmap[u].proc == Some(proc)
      modifies this`svmap, this`scheduled
      ensures v in old(svmap) && old(svmap)[v].proc == Some(proc)
      ensures Abs() == After(old(Abs()), Exited(old(Srv()), v, now))
    {
      var todo := svmap.Keys;
      ghost var u :| u in svmap && svmap[u].proc == Some(proc);
      assert u in todo;
      v :| v in todo;
      while svmap[v].proc != Some(proc)
        invariant v in todo && todo <= svmap.Keys && u in todo
        invariant forall u :: u in svmap && u !in todo ==> svmap[u].proc != Some(proc)
        decreases |todo|
      {
        todo := todo - {v};
        assert u in todo;
        v :| v in todo;
      }
      var inf := svmap[v];
      if inf.pstate == Active {
        svmap := svmap[v := inf.(pstate := Inactive, proc := None)];
      } else if inf.pstate == Started {
        svmap := svmap[v := inf.(pstate := Failed, failed := now)];
        ExecLater();
      } else if inf.pstate == Stopped {
        svmap := svmap[v := inf.(proc := None)];
      } else if inf.pstate == Holding {
        svmap := svmap[v := inf.(pstate := Stopped, proc := None)];
      }
    }
  }

  /** Bind replies handled in order. */
  function NotifyAll(s: State, replies: seq<BindReply>): (t: State)
    ensures t == s.(requests := t.requests, answers := t.answers, cancelled := t.cancelled)
  {
    if replies == [] then s
    else
      var last := replies[|replies| - 1];
      Mediator.NotifyBind(NotifyAll(s, replies[..|replies| - 1]), last.0, last.1)
  }

  lemma {:induction false} NotifyAllAppend(s: State, a: seq<BindReply>, b: seq<BindReply>)
    ensures NotifyAll(s, a + b) == NotifyAll(NotifyAll(s, a), b)
  {
    if b == [] {
      assert a + b == a;
    } else {
      assert (a + b)[..|a + b| - 1] == a + b[..|b| - 1];
      NotifyAllAppend(s, a, b[..|b| - 1]);
    }
  }

  function Batch(early: seq<seq<BindReply>>, k: nat): seq<BindReply>
  {
    if k < |early| then early[k] else []
  }

  /** The first k batches of replies. */
  function Flatten(early: seq<seq<BindReply>>, k: nat): seq<BindReply>
  {
    if k == 0 then [] else Flatten(early, k - 1) + Batch(early, k - 1)
  }

  lemma {:induction false} FlattenNothing(k: nat)
    ensures Flatten([], k) == []
  {
    if k > 0 { FlattenNothing(k - 1); }
  }

  lemma InvokeCases(s: State, id: ReqId, svid: Svid, twoWay: bool, env: Env)
    ensures var t, inf := Mediator.Invoke(s, id, svid, twoWay, env), s.servers.Inf(svid);
            && (svid !in s.servers.svmap ==> t == s.Told(InvokeAnswer(id, SysEx)))
            && (svid in s.servers.svmap ==>
                  match inf.pstate
                  case Stopped => t == s.Queued(InvokeRec(id, svid, twoWay))
                  case Holding => t == s.Queued(InvokeRec(id, svid, twoWay))
                  case Active =>
                    t == if twoWay && s.forward then s.Told(InvokeAnswer(id, Forward(inf.ior))) else Send(s, id, twoWay)
                  case _ =>
                    var (sv, ok) := Mediator.CreateServer(s.servers, svid, env);
                    t == if ok then s.(servers := sv).Queued(InvokeRec(id, svid, twoWay))
                         else s.(servers := sv).Told(InvokeAnswer(id, SysEx)))
  {
  }

  lemma PutTwice(sv: Servers, v: Svid, a: SvInf, b: SvInf)
    ensures sv.Put(v, a).Put(v, b) == sv.Put(v, b)
  {
    assert sv.svmap[v := a][v := b] == sv.svmap[v := b];
  }

  /** Inserting the entry of a server first makes no difference to creating it. */
  lemma CreateAfterEntry(sv: Servers, v: Svid, env: Env)
    requires sv.Inf(v).pstate != Holding && sv.Inf(v).pstate != Stopped
    ensures Mediator.CreateServer(sv.Put(v, sv.Inf(v)), v, env) == Mediator.CreateServer(sv, v, env)
  {
    var inf := sv.Inf(v);
    PutTwice(sv, v, inf, inf);
    PutTwice(sv, v, inf, inf.(pstate := Inactive));
    PutTwice(sv, v, inf, inf.(pstate := Started, proc := Some(sv.nextPid)));
    PutTwice(sv, v, inf, inf.(pstate := Inactive).(pstate := Started, proc := Some(sv.nextPid)));
  }

  ghost predicate IsOrder(order: seq<Svid>, svmap: map<Svid, SvInf>)
  {
    && (forall i, j :: 0 <= i < j < |order| ==> order[i] != order[j])
    && (forall v :: v in svmap <==> v in order)
  }

  /** The Active servers among the first n of a list. */
  ghost function ActiveOf(svmap: map<Svid, SvInf>, order: seq<Svid>, n: nat): (r: seq<Svid>)
    requires n <= |order|
  {
    if n == 0 then []
    else
      var v := order[n - 1];
      ActiveOf(svmap, order, n - 1) + if v in svmap && svmap[v].pstate == Active then [v] else []
  }

  lemma {:induction false} ActiveOfMembers(svmap: map<Svid, SvInf>, order: seq<Svid>, n: nat)
    requires n <= |order|
    requires forall i, j :: 0 <= i < j < |order| ==> order[i] != order[j]
    ensures var r := ActiveOf(svmap, order, n);
            && (forall v :: v in r <==> v in order[..n] && v in svmap && svmap[v].pstate == Active)
            && (forall i, j :: 0 <= i < j < |r| ==> r[i] != r[j])
  {
    if n > 0 {
      ActiveOfMembers(svmap, order, n - 1);
      assert order[..n] == order[..n - 1] + [order[n - 1]] && order[n - 1] !in order[..n - 1];
    }
  }

  /** A list without repetitions of the elements of a set. */
  lemma {:induction false} ListOfSet<T>(r: seq<T>, s: set<T>)
    requires forall v :: v in r <==> v in s
    requires forall i, j :: 0 <= i < j < |r| ==> r[i] != r[j]
    ensures |r| == |s|
  {
    if r == [] {
      assert s == {};
    } else {
      var front, last := r[..|r| - 1], r[|r| - 1];
      assert r == front + [last] && last !in front;
      ListOfSet(front, s - {last});
    }
  }

  lemma ActiveOfAll(svmap: map<Svid, SvInf>, order: seq<Svid>)
    requires IsOrder(order, svmap)
    ensures var r, active := ActiveOf(svmap, order, |order|), set v | v in svmap && svmap[v].pstate == Active;
            && |r| == |active|
            && (forall v :: v in r <==> v in active)
  {
    assert order[..|order|] == order;
    ActiveOfMembers(svmap, order, |order|);
    ListOfSet(ActiveOf(svmap, order, |order|), set v | v in svmap && svmap[v].pstate == Active);
  }

  lemma {:induction false} ActiveOfPrefix(svmap: map<Svid, SvInf>, order: seq<Svid>, k: nat, n: nat)
    requires k <= n <= |order|
    ensures ActiveOf(svmap, order, k) <= ActiveOf(svmap, order, n)
  {
    if k < n { ActiveOfPrefix(svmap, order, k, n - 1); }
  }

  /** The last slot goes to the first server, and so on. */
  function Addressed(msgids: seq<MsgId>, to: seq<Svid>, n: nat): (sends: seq<(MsgId, Svid)>)
    requires n <= |to| == |msgids|
    ensures |sends| == n
  {
    if n == 0 then [] else Addressed(msgids, to, n - 1) + [(msgids[|msgids| - n], to[n - 1])]
  }

  /** The servers before it have got their messages, and s0 has become t meanwhile. */
  ghost predicate SentSoFar(s0: State, t: State, order: seq<Svid>, it: nat, msgids: seq<MsgId>,
                            early: seq<seq<BindReply>>,
                            sends: seq<(MsgId, Svid)>)
    requires it <= |order|
  {
    var to := ActiveOf(s0.servers.svmap, order, |order|);
    && |msgids| == |to| && |sends| == |ActiveOf(s0.servers.svmap, order, it)| <= |msgids|
    && t == NotifyAll(s0, Flatten(early, |sends|)) && sends == Addressed(msgids, to, |sends|)
  }

  lemma NothingSent(s0: State, order: seq<Svid>, msgids: seq<MsgId>, early: seq<seq<BindReply>>)
    requires |msgids| == |ActiveOf(s0.servers.svmap, order, |order|)|
    ensures SentSoFar(s0, s0, order, 0, msgids, early, [])
  {
  }

  lemma NextAddressed(msgids: seq<MsgId>, svmap: map<Svid, SvInf>, order: seq<Svid>, it: nat, n: nat)
    requires it < |order| && order[it] in svmap && svmap[order[it]].pstate == Active
    requires n == |ActiveOf(svmap, order, it)| && |msgids| == |ActiveOf(svmap, order, |order|)|
    ensures n < |msgids|
    ensures |ActiveOf(svmap, order, it + 1)| == n + 1
    ensures var to := ActiveOf(svmap, order, |order|);
            Addressed(msgids, to, n + 1) == Addressed(msgids, to, n) + [(msgids[|msgids| - 1 - n], order[it])]
  {
    ActiveOfPrefix(svmap, order, it + 1, |order|);
    assert ActiveOf(svmap, order, it + 1)[n] == order[it];
  }

  lemma EraseOne(requests: map<MsgId, ReqId>, m: MsgId, id: ReqId)
    requires m in requests && requests[m] == id
    ensures Without(requests - {m}, id) == Without(requests, id)
    ensures |SlotsIn(requests - {m}, id)| == |SlotsIn(requests, id)| - 1
  {
    assert SlotsIn(requests - {m}, id) == SlotsIn(requests, id) - {m};
    assert m in SlotsIn(requests, id);
  }

  lemma NothingLeft(requests: map<MsgId, ReqId>, id: ReqId)
    requires SlotsIn(requests, id) == {}
    ensures Without(requests, id) == requests
  {
    assert forall m :: m in requests && requests[m] == id ==> m in SlotsIn(requests, id);
  }
}
