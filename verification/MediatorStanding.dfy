/** Conservation of binds: where a bind stands over a whole run of the mediator. */
module MediatorStanding {
  import opened Mediator
  import opened MediatorBinds
  import opened MediatorRuns

  /** The same for id as before, apart from servers and other requests. */
  ghost predicate Untouched(s: State, t: State, id: ReqId)
  {
    && Grows(s, t) && Where(t, id) == Where(s, id)
    && forall r :: r in t.queue && r.id == id ==> r in s.queue
  }

  lemma UntouchedStands(s: State, t: State, id: ReqId)
    requires Untouched(s, t, id) && OnlyBound(s, id)
    ensures OnlyBound(t, id) && Standing(t, id) == Standing(s, id)
  {
    assert t.Slots(id) == s.Slots(id);
  }

  lemma NotQueued(s: State, id: ReqId)
    requires Count(s.queue, id) == 0
    ensures forall r :: r in s.queue ==> r.id != id
  {
    forall r | r in s.queue ensures r.id != id {
      var i :| 0 <= i < |s.queue| && s.queue[i] == r;
      CountFinds(s.queue, i);
    }
  }

  // ---------------------------------------------------------------------------------------
  // A pass over the queue

  /** The first record is the bind id, and executing it asks nobody. */
  ghost predicate ForgetsFirst(s: State, seen: set<ReqId>, env: Env, id: ReqId)
    requires s.queue != []
  {
    var r := s.queue[0];
    r.id == id && id !in seen && r.BindRec? && NobodyToAsk(s, r.repoid, r.tag, env)
  }

  lemma PassStepGrows(s: State, seen: set<ReqId>, env: Env)
    requires s.Valid() && s.queue != []
    ensures Grows(s, PassStep(s, seen, env))
  {
    var r, rest := s.queue[0], s.(queue := s.queue[1..]);
    if r.id !in seen { ExecGrows(rest, r, env); }
  }

  lemma OtherFirst(s: State, seen: set<ReqId>, env: Env, id: ReqId)
    requires s.Valid() && s.queue != [] && s.queue[0].id != id
    ensures Untouched(s, PassStep(s, seen, env), id)
  {
    hide Exec, Where;
    PassStepGrows(s, seen, env);
    PassStepPlaces(s, seen, env, id);
    ExecQueue(s.(queue := s.queue[1..]), s.queue[0], env);
  }

  lemma SameServers(s: State, t: State, repoid: string, tag: string, env: Env)
    requires s.servers == t.servers
    ensures NobodyToAsk(s, repoid, tag, env) <==> NobodyToAsk(t, repoid, tag, env)
  {
  }

  lemma OwnFirst(s: State, seen: set<ReqId>, env: Env, id: ReqId)
    requires s.Valid() && s.queue != [] && s.queue[0].id == id && OnlyBound(s, id) && Standing(s, id) <= 1
    ensures var t := PassStep(s, seen, env);
            && t.Valid() && OnlyBound(t, id)
            && Standing(t, id) == (if ForgetsFirst(s, seen, env, id) then 0 else 1) && Standing(s, id) == 1
  {
    hide Bind, AnswersTo, NobodyToAsk;
    var r, rest := s.queue[0], s.(queue := s.queue[1..]);
    PopPlaces(s, id);
    assert r in s.queue && r.BindRec?;
    if id in seen {
      LostPlaces(rest, r, id);
    } else {
      BindStands(rest, id, r.repoid, r.tag, env);
      var (t, handled) := Bind(rest, id, r.repoid, r.tag, env);
      ToldPlaces(t, BindAnswer(id, LocateUnknown), id);
      SameServers(s, rest, r.repoid, r.tag, env);
    }
  }

  /** How often a pass forgets the bind. */
  ghost function PassForgets(s: State, seen: set<ReqId>, env: Env, id: ReqId): nat
    decreases Unseen(s.queue, seen), |s.queue|
  {
    if s.queue == [] then 0
    else
      var r, rest := s.queue[0], s.(queue := s.queue[1..]);
      ExecQueue(rest, r, env);
      UnseenShrinks(rest.queue, seen, r.id);
      UnseenAppend(rest.queue, r, seen + {r.id});
      (if ForgetsFirst(s, seen, env, id) then 1 else 0)
      + PassForgets(PassStep(s, seen, env), if r.id in seen then seen else seen + {r.id}, env, id)
  }

  lemma {:induction false} PassStands(s: State, seen: set<ReqId>, env: Env, id: ReqId)
    requires s.Valid() && OnlyBound(s, id) && Standing(s, id) <= 1
    ensures var t := ExecPass(s, seen, env);
            t.Valid() && OnlyBound(t, id) && Standing(t, id) + PassForgets(s, seen, env, id) == Standing(s, id)
    decreases Unseen(s.queue, seen), |s.queue|
  {
    hide Exec, Where, OnlyBound, Standing;
    if s.queue != [] {
      var r, rest, t := s.queue[0], s.(queue := s.queue[1..]), PassStep(s, seen, env);
      ExecQueue(rest, r, env);
      UnseenShrinks(rest.queue, seen, r.id);
      UnseenAppend(rest.queue, r, seen + {r.id});
      if r.id == id {
        OwnFirst(s, seen, env, id);
      } else {
        OtherFirst(s, seen, env, id);
        UntouchedStands(s, t, id);
      }
      PassStands(t, if r.id in seen then seen else seen + {r.id}, env, id);
    }
  }

  // ---------------------------------------------------------------------------------------
  // Replies to the bind itself

  lemma ReplyStands(s: State, m: MsgId, stat: LocateStatus, id: ReqId)
    requires s.Valid() && m in s.Slots(id) && OnlyBound(s, id) && Standing(s, id) <= 1
    ensures var t := NotifyBind(s, m, stat);
            t.Valid() && OnlyBound(t, id) && Standing(t, id) == Standing(s, id)
  {
    hide AnswersTo, Count;
    ErasePlaces(s, m, id);
    var s1 := Erase(s, m);
    ToldPlaces(s1, BindAnswer(id, stat), id);
    CancelPlaces(s1.Told(BindAnswer(id, stat)), id, id);
  }

  lemma ShutdownStands(s: State, id: ReqId)
    requires s.Valid() && OnlyBound(s, id)
    ensures var t := FailAll(s); t.Valid() && OnlyBound(t, id) && Standing(t, id) == Standing(s, id)
  {
    FailPlaces(s, id);
    AnswersToConcat(s.answers, FailAnswers(s.queue), id);
    FailedOnce(s.queue, id);
    assert FailAll(s).Slots(id) == s.Slots(id);
  }

  /** A reply to an invocation is not one to the bind. */
  lemma OtherReply(s: State, e: Event, id: ReqId)
    requires s.Valid() && Legal(s, e) && OnlyBound(s, id)
    ensures e.InvokeReplyEv? ==> e.m !in s.Slots(id)
  {
  }

  /** Events that do not concern the bind, apart from executions of the queue. */
  lemma OtherStep(s: State, e: Event, id: ReqId)
    requires s.Valid() && Legal(s, e) && Foreign(s, e, id) && !e.TimerEv? && !e.ShutdownEv?
    ensures Untouched(s, Step(s, e), id)
  {
    hide Where, Invoke, Bind;
    StepGrows(s, e);
    assert e in [e];
    match e
    case InvokeEv(id', v, twoWay, env) =>
      InvokePlaces(s, id', v, twoWay, env, id);
      InvokeQueue(s, id', v, twoWay, env);
      assert OneMore(s, Invoke(s, id', v, twoWay, env), id', twoWay, id);
    case BindEv(id', repoid, tag, env) =>
      BindPlaces(s, id', repoid, tag, env, id);
      BindQueue(s, id', repoid, tag, env);
    case CancelEv(id') => CancelPlaces(s, id', id);
    case InvokeReplyEv(m, status) => InvokeReplyPlaces(s, m, status, id);
    case BindReplyEv(m, stat) => BindReplyPlaces(s, m, stat, id);
    case TimerEv(_) =>
    case ShutdownEv =>
    case _ => LaterPlaces(s, ServerStep(s.servers, e), id);
  }

  // ---------------------------------------------------------------------------------------
  // Runs

  /** Leaving for good in one event: cancelled while the servers are asked, or forgotten. */
  ghost function Leaves(s: State, e: Event, id: ReqId): nat
  {
    match e
    case CancelEv(id') => if id' == id && s.Slots(id) != {} then 1 else 0
    case TimerEv(env) => PassForgets(s.(scheduled := false), {}, env, id)
    case _ => 0
  }

  ghost function LeavesOnRun(s: State, es: seq<Event>, id: ReqId): nat
    requires LegalRun(s, es)
    decreases |es|
  {
    if es == [] then 0 else Leaves(s, es[0], id) + LeavesOnRun(Step(s, es[0]), es[1..], id)
  }

  lemma StepStands(s: State, e: Event, id: ReqId)
    requires s.Valid() && OnlyBound(s, id) && Standing(s, id) <= 1 && Legal(s, e) && NotReissued([e], id)
    ensures var t := Step(s, e);
            t.Valid() && OnlyBound(t, id) && Standing(t, id) + Leaves(s, e, id) == Standing(s, id)
  {
    OtherReply(s, e, id);
    if e.TimerEv? {
      var s0 := s.(scheduled := false);
      assert s0.Slots(id) == s.Slots(id);
      PassStands(s0, {}, e.env, id);
    } else if e.ShutdownEv? {
      ShutdownStands(s, id);
    } else if e.CancelEv? && e.id == id {
      CancelPlaces(s, id, id);
    } else if e.BindReplyEv? && e.m in s.Slots(id) {
      ReplyStands(s, e.m, e.stat, id);
    } else {
      OtherStep(s, e, id);
      UntouchedStands(s, Step(s, e), id);
    }
  }

  lemma {:induction false} RunStands(s: State, es: seq<Event>, id: ReqId)
    requires s.Valid() && OnlyBound(s, id) && Standing(s, id) <= 1 && LegalRun(s, es) && NotReissued(es, id)
    ensures var t := Run(s, es);
            t.Valid() && OnlyBound(t, id) && Standing(t, id) + LeavesOnRun(s, es, id) == Standing(s, id)
    decreases |es|
  {
    hide OnlyBound, Standing, Leaves, Step, Legal;
    if es != [] {
      assert es[0] in es;
      StepStands(s, es[0], id);
      RunStands(Step(s, es[0]), es[1..], id);
    }
  }

  /** Conservation of binds over whole runs: a bind that the mediator takes is, at every later point,
      in exactly one place (answered once, waiting in the queue, sent out, or dropped by the queue),
      or it has left once: it was cancelled while the servers were asked, or there was nobody to ask. */
  lemma BindInExactlyOnePlace(s: State, id: ReqId, repoid: string, tag: string, env: Env, es: seq<Event>)
    requires s.Valid() && Where(s, id).Total() == 0 && Bind(s, id, repoid, tag, env).1
    requires LegalRun(Bind(s, id, repoid, tag, env).0, es) && NotReissued(es, id)
    ensures var t := Bind(s, id, repoid, tag, env).0;
            Standing(Run(t, es), id) + LeavesOnRun(t, es, id)
            == if NobodyToAsk(s, repoid, tag, env) then 0 else 1
  {
    NotQueued(s, id);
    BindStands(s, id, repoid, tag, env);
    RunStands(Bind(s, id, repoid, tag, env).0, es, id);
  }
}
