/** The bind broadcast of the POA mediator: one slot per Active server, replies in any order and
    interleaved with anything else, late replies to cancelled slots. */
module MediatorBinds {
  import opened Mediator
  import opened MediatorQueue
  import opened MediatorRuns

  /** Messages stay what they were sent as. */
  ghost predicate Grows(s: State, t: State)
  {
    t.Valid() && forall m :: m in s.sent ==> m in t.sent && t.sent[m] == s.sent[m]
  }

  lemma InvokeGrows(s: State, id: ReqId, v: Svid, twoWay: bool, env: Env)
    requires s.Valid()
    ensures Grows(s, Invoke(s, id, v, twoWay, env))
  {
    InvokePlaces(s, id, v, twoWay, env, id);
  }

  lemma ExecGrows(s: State, r: QueueRec, env: Env)
    requires s.Valid()
    ensures Grows(s, Exec(s, r, env))
  {
    match r
    case InvokeRec(id, v, twoWay) => InvokeGrows(s, id, v, twoWay, env);
    case BindRec(id, repoid, tag) => BindGrows(s, id, repoid, tag, env);
  }

  lemma BindGrows(s: State, id: ReqId, repoid: string, tag: string, env: Env)
    requires s.Valid()
    ensures Grows(s, Bind(s, id, repoid, tag, env).0)
  {
    hide Where, OnlyInvoked, StartAll;
    BindPlaces(s, id, repoid, tag, env, id + 1);
    var sv := StartAll(s.servers, env.Serving(repoid, tag), env, AllUp).0;
    BroadcastPlaces(s.(servers := sv), id, id + 1);
  }

  lemma {:induction false} PassGrows(s: State, seen: set<ReqId>, env: Env)
    requires s.Valid()
    ensures Grows(s, ExecPass(s, seen, env))
    decreases Unseen(s.queue, seen), |s.queue|
  {
    if s.queue != [] {
      var r, rest := s.queue[0], s.(queue := s.queue[1..]);
      if r.id in seen {
        PassGrows(rest.(lost := rest.lost + [r]), seen, env);
      } else {
        ExecQueue(rest, r, env);
        UnseenShrinks(rest.queue, seen, r.id);
        UnseenAppend(rest.queue, r, seen + {r.id});
        ExecGrows(rest, r, env);
        PassGrows(Exec(rest, r, env), seen + {r.id}, env);
      }
    }
  }

  lemma BindReplyGrows(s: State, m: MsgId, stat: LocateStatus)
    requires s.Valid()
    ensures Grows(s, NotifyBind(s, m, stat))
  {
  }

  lemma StepGrows(s: State, e: Event)
    requires s.Valid() && Legal(s, e)
    ensures Grows(s, Step(s, e))
  {
    match e
    case InvokeEv(id, v, twoWay, env) => InvokeGrows(s, id, v, twoWay, env);
    case BindEv(id, repoid, tag, env) => BindGrows(s, id, repoid, tag, env);
    case CancelEv(id) => CancelPlaces(s, id, id);
    case InvokeReplyEv(m, status) => InvokeReplyPlaces(s, m, status, s.requests[m]);
    case BindReplyEv(m, stat) => BindReplyGrows(s, m, stat);
    case TimerEv(env) => PassGrows(s.(scheduled := false), {}, env);
    case ShutdownEv =>
    case _ =>
  }

  // ---------------------------------------------------------------------------------------
  // Events that do not concern a broadcast

  /** e neither issues, cancels nor answers a slot of the request id. */
  ghost predicate Foreign(s: State, e: Event, id: ReqId)
  {
    && NotReissued([e], id)
    && (e.CancelEv? ==> e.id != id)
    && (e.InvokeReplyEv? || e.BindReplyEv? ==> e.m !in s.Slots(id))
  }

  lemma ForeignStep(s: State, e: Event, id: ReqId)
    requires s.Valid() && Legal(s, e) && Foreign(s, e, id) && Count(s.queue, id) == 0
    ensures Where(Step(s, e), id) == Where(s, id)
  {
    assert e in [e];
    match e
    case InvokeEv(id', v, twoWay, env) => InvokePlaces(s, id', v, twoWay, env, id);
    case BindEv(id', repoid, tag, env) => BindPlaces(s, id', repoid, tag, env, id);
    case CancelEv(id') => CancelPlaces(s, id', id);
    case InvokeReplyEv(m, status) => InvokeReplyPlaces(s, m, status, id);
    case BindReplyEv(m, stat) => BindReplyPlaces(s, m, stat, id);
    case TimerEv(env) => PassPlaces(s.(scheduled := false), {}, env, id);
    case ShutdownEv => FailPlaces(s, id);
    case _ => LaterPlaces(s, ServerStep(s.servers, e), id);
  }

  // ---------------------------------------------------------------------------------------
  // A broadcast and its replies

  type BindReply = (MsgId, LocateStatus)

  ghost function From(heard: seq<BindReply>): set<MsgId>
  {
    set i | 0 <= i < |heard| :: heard[i].0
  }

  ghost predicate SomeHere(heard: seq<BindReply>)
  {
    exists i :: 0 <= i < |heard| && heard[i].1 == LocateHere
  }

  /** The state of a broadcast over the slots, some of whose replies have been heard: all slots
      without a reply are outstanding and nothing is answered, until a server has the object or
      the last reply is in. */
  ghost predicate Underway(s: State, id: ReqId, slots: set<MsgId>, heard: seq<BindReply>)
  {
    && s.Valid() && Count(s.queue, id) == 0 && slots != {} && From(heard) <= slots
    && (forall m :: m in slots ==> m in s.sent && s.sent[m] == BindMsg)
    && (if SomeHere(heard) then
          s.Slots(id) == {} && AnswersTo(s.answers, id) == [BindAnswer(id, LocateHere)]
        else
          && s.Slots(id) == slots - From(heard)
          && (if From(heard) == slots
              then heard != [] && AnswersTo(s.answers, id) == [BindAnswer(id, heard[|heard| - 1].1)]
              else AnswersTo(s.answers, id) == []))
  }

  lemma FromAppend(heard: seq<BindReply>, r: BindReply)
    ensures From(heard + [r]) == From(heard) + {r.0}
    ensures SomeHere(heard + [r]) <==> SomeHere(heard) || r.1 == LocateHere
  {
    var all := heard + [r];
    forall i | 0 <= i < |heard| ensures heard[i].0 in From(all) && (heard[i].1 == LocateHere ==> SomeHere(all)) {
      assert all[i] == heard[i];
    }
    assert all[|heard|] == r;
  }

  /** A reply to a slot that is no longer outstanding is ignored. */
  lemma LateReply(s: State, id: ReqId, slots: set<MsgId>, heard: seq<BindReply>, m: MsgId, stat: LocateStatus)
    requires Underway(s, id, slots, heard) && m in slots && m !in From(heard) && SomeHere(heard)
    ensures Underway(NotifyBind(s, m, stat), id, slots, heard + [(m, stat)])
  {
    FromAppend(heard, (m, stat));
    assert m !in s.Slots(id);
    BindReplyPlaces(s, m, stat, id);
  }

  lemma FoundReply(s: State, id: ReqId, slots: set<MsgId>, heard: seq<BindReply>, m: MsgId)
    requires Underway(s, id, slots, heard) && m in slots && m !in From(heard) && !SomeHere(heard)
    ensures Underway(NotifyBind(s, m, LocateHere), id, slots, heard + [(m, LocateHere)])
  {
    FromAppend(heard, (m, LocateHere));
    assert m in s.Slots(id) && From(heard) != slots;
    ErasePlaces(s, m, id);
    var s1 := Erase(s, m);
    ToldPlaces(s1, BindAnswer(id, LocateHere), id);
    CancelPlaces(s1.Told(BindAnswer(id, LocateHere)), id, id);
  }

  lemma NegativeReply(s: State, id: ReqId, slots: set<MsgId>, heard: seq<BindReply>, m: MsgId, stat: LocateStatus)
    requires Underway(s, id, slots, heard) && m in slots && m !in From(heard) && !SomeHere(heard) && stat != LocateHere
    ensures Underway(NotifyBind(s, m, stat), id, slots, heard + [(m, stat)])
  {
    FromAppend(heard, (m, stat));
    assert m in s.Slots(id) && From(heard) != slots;
    ErasePlaces(s, m, id);
    ToldPlaces(Erase(s, m), BindAnswer(id, stat), id);
    assert slots - From(heard) - {m} == slots - (From(heard) + {m});
  }

  lemma ReplyStep(s: State, id: ReqId, slots: set<MsgId>, heard: seq<BindReply>, m: MsgId, stat: LocateStatus)
    requires Underway(s, id, slots, heard) && m in slots && m !in From(heard)
    ensures Underway(NotifyBind(s, m, stat), id, slots, heard + [(m, stat)])
  {
    if SomeHere(heard) {
      LateReply(s, id, slots, heard, m, stat);
    } else if stat == LocateHere {
      FoundReply(s, id, slots, heard, m);
    } else {
      NegativeReply(s, id, slots, heard, m, stat);
    }
  }

  /** The replies to a broadcast among the events of a run. */
  ghost function RepliesTo(es: seq<Event>, slots: set<MsgId>): seq<BindReply>
  {
    if es == [] then []
    else (if es[0].BindReplyEv? && es[0].m in slots then [(es[0].m, es[0].stat)] else []) + RepliesTo(es[1..], slots)
  }

  ghost predicate NotCancelled(es: seq<Event>, id: ReqId)
  {
    forall e :: e in es && e.CancelEv? ==> e.id != id
  }

  /** The ORB delivers at most one reply to a message. */
  ghost predicate Once(heard: seq<BindReply>)
  {
    forall i, j :: 0 <= i < j < |heard| ==> heard[i].0 != heard[j].0
  }

  lemma {:induction false} RunOfBroadcast(s: State, es: seq<Event>, id: ReqId, slots: set<MsgId>, heard: seq<BindReply>)
    requires Underway(s, id, slots, heard)
    requires LegalRun(s, es) && NotReissued(es, id) && NotCancelled(es, id)
    requires Once(heard + RepliesTo(es, slots))
    ensures Underway(Run(s, es), id, slots, heard + RepliesTo(es, slots))
    decreases |es|
  {
    if es == [] {
      assert heard + [] == heard;
    } else {
      var e, rest := es[0], es[1..];
      assert e in es;
      var t := Step(s, e);
      StepGrows(s, e);
      if e.BindReplyEv? && e.m in slots {
        var all := heard + RepliesTo(es, slots);
        var more := heard + [(e.m, e.stat)];
        assert all == more + RepliesTo(rest, slots);
        forall i | 0 <= i < |heard| ensures heard[i].0 != e.m {
          assert all[i] == heard[i] && all[|heard|] == (e.m, e.stat);
        }
        ReplyStep(s, id, slots, heard, e.m, e.stat);
        RunOfBroadcast(t, rest, id, slots, more);
      } else {
        assert RepliesTo(es, slots) == RepliesTo(rest, slots);
        assert s.Slots(id) <= slots;
        assert NotReissued([e], id);
        ForeignStep(s, e, id);
        RunOfBroadcast(t, rest, id, slots, heard);
      }
    }
  }

  lemma RunFromStart(s: State, es: seq<Event>, id: ReqId, slots: set<MsgId>)
    requires Underway(s, id, slots, [])
    requires LegalRun(s, es) && NotReissued(es, id) && NotCancelled(es, id) && Once(RepliesTo(es, slots))
    ensures Underway(Run(s, es), id, slots, RepliesTo(es, slots))
  {
    var replies := RepliesTo(es, slots);
    assert [] + replies == replies;
    RunOfBroadcast(s, es, id, slots, []);
  }

  /** The bind is sent to the Active servers: every server of the interface is up (or held, or
      stopped), and at least one server is Active. */
  ghost predicate Broadcasts(s: State, repoid: string, tag: string, env: Env)
  {
    && env.Serving(repoid, tag) != []
    && (forall v :: v in env.Serving(repoid, tag) ==> Settles(s.servers, v))
    && s.servers.Active() != {}
  }

  lemma BroadcastBegins(s: State, id: ReqId, repoid: string, tag: string, env: Env)
    requires s.Valid() && Where(s, id).Total() == 0 && Broadcasts(s, repoid, tag, env)
    ensures var t := Bind(s, id, repoid, tag, env).0;
            Underway(t, id, t.Slots(id), []) && |t.Slots(id)| == |t.servers.Active()|
  {
    SettledIsKept(s.servers, env.Serving(repoid, tag), env);
    SlotsBegin(s, id);
  }

  lemma SlotsBegin(s: State, id: ReqId)
    requires s.Valid() && Where(s, id).Total() == 0 && s.servers.Active() != {}
    ensures var t := Broadcast(s, id);
            Underway(t, id, t.Slots(id), []) && |t.Slots(id)| == |s.servers.Active()|
  {
    var slots := FreshIds(s.nextMsg, |s.servers.Active()|);
    BroadcastPlaces(s, id, id);
    assert s.Slots(id) == {};
    assert Broadcast(s, id).Slots(id) == slots;
  }

  lemma AllIn(s: State, id: ReqId, slots: set<MsgId>, heard: seq<BindReply>)
    requires Underway(s, id, slots, heard) && From(heard) == slots
    ensures s.Slots(id) == {}
    ensures var answers := AnswersTo(s.answers, id);
            && |answers| == 1 && answers[0].BindAnswer?
            && (answers[0].bstat == LocateHere <==> SomeHere(heard))
  {
    if !SomeHere(heard) { assert heard[|heard| - 1].1 != LocateHere; }
  }

  /** t is the state after the broadcast of a request that was not known before, and es a run
      from there in which the ORB replies at most once to each slot. */
  ghost predicate BroadcastRun(s: State, t: State, id: ReqId, repoid: string, tag: string, env: Env, es: seq<Event>)
  {
    && s.Valid() && Where(s, id).Total() == 0 && Broadcasts(s, repoid, tag, env)
    && t == Bind(s, id, repoid, tag, env).0
    && LegalRun(t, es) && NotReissued(es, id) && NotCancelled(es, id)
    && Once(RepliesTo(es, t.Slots(id)))
  }

  /** A bind broadcast is answered exactly once when all its replies are in, and with
      LocateHere if and only if some server had the object. Other requests, other broadcasts,
      crashes and executions of the queue may come in between in any order. */
  lemma BroadcastAnsweredOnce(s: State, t: State, id: ReqId, repoid: string, tag: string, env: Env, es: seq<Event>)
    requires BroadcastRun(s, t, id, repoid, tag, env, es) && From(RepliesTo(es, t.Slots(id))) == t.Slots(id)
    ensures var answers := AnswersTo(Run(t, es).answers, id);
            && |answers| == 1 && answers[0].BindAnswer?
            && (answers[0].bstat == LocateHere <==> SomeHere(RepliesTo(es, t.Slots(id))))
    ensures Run(t, es).Slots(id) == {}
  {
    BroadcastBegins(s, id, repoid, tag, env);
    RunFromStart(t, es, id, t.Slots(id));
    AllIn(Run(t, es), id, t.Slots(id), RepliesTo(es, t.Slots(id)));
  }

  /** Before all replies are in, it is answered only if a server has the object, and then once. */
  lemma BroadcastNotAnsweredEarly(s: State, t: State, id: ReqId, repoid: string, tag: string, env: Env, es: seq<Event>)
    requires BroadcastRun(s, t, id, repoid, tag, env, es) && From(RepliesTo(es, t.Slots(id))) != t.Slots(id)
    ensures AnswersTo(Run(t, es).answers, id) ==
            if SomeHere(RepliesTo(es, t.Slots(id))) then [BindAnswer(id, LocateHere)] else []
  {
    BroadcastBegins(s, id, repoid, tag, env);
    RunFromStart(t, es, id, t.Slots(id));
  }

  /** The names served are held or stopped, all of them, and no server at all is Active. */
  ghost predicate NobodyToAsk(s: State, repoid: string, tag: string, env: Env)
  {
    && env.Serving(repoid, tag) != []
    && (forall v :: v in env.Serving(repoid, tag) ==>
          s.servers.Inf(v).pstate == Holding || s.servers.Inf(v).pstate == Stopped)
    && s.servers.Active() == {}
  }

  lemma NobodyIff(s: State, repoid: string, tag: string, env: Env)
    ensures var names := env.Serving(repoid, tag);
            NobodyToAsk(s, repoid, tag, env) <==>
            names != [] && StartAll(s.servers, names, env, AllUp).1 == AllUp && s.servers.Active() == {}
  {
    AllUpIff(s.servers, env.Serving(repoid, tag), env);
    forall v | s.servers.Inf(v).pstate == Active ensures v in s.servers.Active() {}
  }

  /** A bind stands at one place while it is answered, queued, dropped by the queue, or sent out. */
  ghost function Standing(s: State, id: ReqId): nat
  {
    var p := Where(s, id);
    |p.answers| + p.queued + p.lost + if p.slots == {} then 0 else 1
  }

  /** A request that is issued only as a bind. */
  ghost predicate OnlyBound(s: State, id: ReqId)
  {
    && (forall m :: m in s.Slots(id) ==> m in s.sent && s.sent[m] == BindMsg)
    && (forall r :: r in s.queue && r.id == id ==> r.BindRec?)
  }

  /** A bind that the mediator takes stands somewhere afterwards, unless there is nobody to ask. */
  lemma BindStands(s: State, id: ReqId, repoid: string, tag: string, env: Env)
    requires s.Valid() && Standing(s, id) == 0 && OnlyBound(s, id)
    ensures var (t, handled) := Bind(s, id, repoid, tag, env);
            && t.Valid() && OnlyBound(t, id) && t.cancelled == s.cancelled
            && Standing(t, id) == (if handled && !NobodyToAsk(s, repoid, tag, env) then 1 else 0)
            && (NobodyToAsk(s, repoid, tag, env) ==> handled)
  {
    hide AnswersTo, Count;
    var names := env.Serving(repoid, tag);
    var (sv, ready) := StartAll(s.servers, names, env, AllUp);
    var s1 := s.(servers := sv);
    NobodyIff(s, repoid, tag, env);
    ServersPlaces(s, sv, id);
    assert s.Slots(id) == {};
    match ready
    case Refused => ToldPlaces(s1, BindAnswer(id, LocateUnknown), id);
    case Waiting => QueuedPlaces(s1, BindRec(id, repoid, tag), id);
    case AllUp =>
      AllUpIff(s.servers, names, env);
      SettledIsKept(s.servers, names, env);
      BroadcastPlaces(s, id, id);
      var all := FreshIds(s.nextMsg, |s.servers.Active()|);
      assert {} + all == all;
  }

  /** When a bind is neither answered nor queued, nor sent to anyone, though the mediator took it. */
  lemma HeldBindIsForgottenIff(s: State, id: ReqId, repoid: string, tag: string, env: Env)
    requires s.Valid() && Where(s, id).Total() == 0
    ensures var (t, handled) := Bind(s, id, repoid, tag, env);
            handled && Where(t, id).Total() == 0 <==> NobodyToAsk(s, repoid, tag, env)
  {
    hide Bind, NobodyToAsk;
    forall r | r in s.queue ensures r.id != id {
      var i :| 0 <= i < |s.queue| && s.queue[i] == r;
      CountFinds(s.queue, i);
    }
    BindStands(s, id, repoid, tag, env);
  }

  /** A bind to a held server, while nothing else runs. */
  lemma HeldBindIsForgotten(env: Env)
    requires env.Serving("IDL:Account:1.0", "") == ["a"]
    ensures var s := State(true, Servers(map["a" := FreshInf.(pstate := Holding)], 1, []), map[], 0, map[], [],
                           false, [], multiset{}, []);
            var (t, handled) := Bind(s, 7, "IDL:Account:1.0", "", env);
            handled && Where(t, 7) == Places([], 0, {}, 0, 0)
  {
    var s := State(true, Servers(map["a" := FreshInf.(pstate := Holding)], 1, []), map[], 0, map[], [],
                   false, [], multiset{}, []);
    assert s.Slots(7) == {} && s.servers.Active() == {};
    HeldBindIsForgottenIff(s, 7, "IDL:Account:1.0", "", env);
    assert Where(Bind(s, 7, "IDL:Account:1.0", "", env).0, 7).Total() == 0;
  }

  // ---------------------------------------------------------------------------------------
  // Cancellation

  lemma {:induction false} NothingMoreHappens(s: State, es: seq<Event>, id: ReqId)
    requires s.Valid() && LegalRun(s, es) && NotReissued(es, id)
    requires Count(s.queue, id) == 0 && s.Slots(id) == {}
    ensures AnswersTo(Run(s, es).answers, id) == AnswersTo(s.answers, id)
    decreases |es|
  {
    if es != [] {
      var e := es[0];
      assert e in es;
      StepGrows(s, e);
      if e.CancelEv? && e.id == id {
        CancelPlaces(s, id, id);
      } else {
        assert NotReissued([e], id);
        ForeignStep(s, e, id);
      }
      NothingMoreHappens(Step(s, e), es[1..], id);
    }
  }

  /** No run in which the request is not issued again answers it after the cancellation. */
  ghost predicate NeverAnswered(s: State, id: ReqId)
  {
    forall es :: LegalRun(Cancel(s, id), es) && NotReissued(es, id) ==>
      AnswersTo(Run(Cancel(s, id), es).answers, id) == AnswersTo(s.answers, id)
  }

  /** Once a request is cancelled nobody answers it any more, whatever replies still arrive, if and
      only if it was not waiting in the queue, from which cancel does not remove it. */
  lemma CancelledIsNeverAnsweredIff(s: State, id: ReqId)
    requires s.Valid()
    ensures NeverAnswered(s, id) <==> Count(s.queue, id) == 0
  {
    var t := Cancel(s, id);
    CancelPlaces(s, id, id);
    if Count(s.queue, id) == 0 {
      forall es | LegalRun(t, es) && NotReissued(es, id)
        ensures AnswersTo(Run(t, es).answers, id) == AnswersTo(s.answers, id)
      {
        NothingMoreHappens(t, es, id);
      }
    } else {
      var es := [ShutdownEv];
      assert es[1..] == [] && LegalRun(t, es) && Run(t, es) == FailAll(t);
      AnswersToConcat(t.answers, FailAnswers(t.queue), id);
      FailedOnce(t.queue, id);
      assert |AnswersTo(Run(t, es).answers, id)| > |AnswersTo(s.answers, id)|;
    }
  }

  /** A request that was cancelled in the queue is answered with a failure at the shutdown. */
  lemma CancelledInQueueIsAnswered(s: State, svid: Svid)
    requires s.answers == [] && s.queue == [InvokeRec(7, svid, true)]
    ensures LegalRun(Cancel(s, 7), [ShutdownEv])
    ensures AnswersTo(Run(Cancel(s, 7), [ShutdownEv]).answers, 7) == [InvokeAnswer(7, SysEx)]
  {
    var t, es := Cancel(s, 7), [ShutdownEv];
    assert es[1..] == [] && Run(t, es) == FailAll(t);
    assert t.queue[1..] == [] && FailAnswers(t.queue) == [InvokeAnswer(7, SysEx)];
    assert [] + [InvokeAnswer(7, SysEx)] == [InvokeAnswer(7, SysEx)];
    AnswersToAppend([], InvokeAnswer(7, SysEx), 7);
  }
}
