/** The runs of the POA mediator, and the conservation of two-way requests over them. */
module MediatorRuns {
  import opened Mediator
  import opened Wrappers

  /** Everything that can happen to the mediator. */
  datatype Event =
    | CreateImplEv(svid: Svid, ior: string)
    | HasObjectEv(svid: Svid, known: bool)
    | ActivateEv(svid: Svid)
    | DeactivateEv(svid: Svid)
    | ForceEv(svid: Svid, env: Env)
    | HoldEv(svid: Svid)
    | StopEv(svid: Svid)
    | ContinueEv(svid: Svid)
    | ExitedEv(svid: Svid, now: int)
    | InvokeEv(id: ReqId, svid: Svid, twoWay: bool, env: Env)
    | BindEv(id: ReqId, repoid: string, tag: string, env: Env)
    | CancelEv(id: ReqId)
    | InvokeReplyEv(m: MsgId, status: InvokeStatus)
    | BindReplyEv(m: MsgId, stat: LocateStatus)
    | TimerEv(env: Env)
    | ShutdownEv

  /** The transitions that do not run into one of the source's failing assertions, and the
      replies the ORB can deliver. */
  ghost predicate Legal(s: State, e: Event)
  {
    match e
    case DeactivateEv(v) =>
      var inf := s.servers.Inf(v);
      inf.pstate == Stopped || (inf.proc.Some? && (inf.pstate == Active || inf.pstate == Holding))
    case StopEv(v) =>
      var inf := s.servers.Inf(v);
      inf.proc.Some? || inf.pstate == Inactive || inf.pstate == Failed || inf.pstate == Stopped
    case ExitedEv(v, _) =>
      && v in s.servers.svmap && s.servers.svmap[v].proc.Some?
      && s.servers.svmap[v].pstate != Inactive && s.servers.svmap[v].pstate != Failed
    case InvokeReplyEv(m, _) => m in s.requests && m in s.sent && s.sent[m] == InvokeMsg
    case BindReplyEv(m, _) => m in s.sent && s.sent[m] == BindMsg
    case TimerEv(_) => s.scheduled
    case _ => true
  }

  /** Events that change the server map, and may schedule the queue, but nothing else. */
  predicate IsServerEvent(e: Event)
  {
    e.CreateImplEv? || e.HasObjectEv? || e.ActivateEv? || e.DeactivateEv? || e.ForceEv?
    || e.HoldEv? || e.StopEv? || e.ContinueEv? || e.ExitedEv?
  }

  function ServerStep(sv: Servers, e: Event): (Servers, bool)
    requires IsServerEvent(e) && (e.ExitedEv? ==> e.svid in sv.svmap)
  {
    match e
    case CreateImplEv(v, ior) => (CreateImpl(sv, v, ior), false)
    case HasObjectEv(v, known) => (HasObject(sv, v, known), false)
    case ActivateEv(v) => ActivateImpl(sv, v)
    case DeactivateEv(v) => (DeactivateImpl(sv, v), false)
    case ForceEv(v, env) => (ForceActivation(sv, v, env).0, false)
    case HoldEv(v) => (Hold(sv, v), false)
    case StopEv(v) => (Stop(sv, v), false)
    case ContinueEv(v) => Continue(sv, v)
    case ExitedEv(v, now) => Exited(sv, v, now)
  }

  ghost function Step(s: State, e: Event): State
    requires Legal(s, e)
  {
    match e
    case InvokeEv(id, v, twoWay, env) => Invoke(s, id, v, twoWay, env)
    case BindEv(id, repoid, tag, env) => Bind(s, id, repoid, tag, env).0
    case CancelEv(id) => Cancel(s, id)
    case InvokeReplyEv(m, status) => NotifyInvoke(s, m, status)
    case BindReplyEv(m, stat) => NotifyBind(s, m, stat)
    case TimerEv(env) => ExecNow(s, env)
    case ShutdownEv => FailAll(s)
    case _ => After(s, ServerStep(s.servers, e))
  }

  ghost predicate LegalRun(s: State, es: seq<Event>)
    decreases |es|
  {
    es == [] || (Legal(s, es[0]) && LegalRun(Step(s, es[0]), es[1..]))
  }

  ghost function Run(s: State, es: seq<Event>): State
    requires LegalRun(s, es)
    decreases |es|
  {
    if es == [] then s else Run(Step(s, es[0]), es[1..])
  }

  /** No event of the run issues a request under this id (ids of requests are unique). */
  ghost predicate NotReissued(es: seq<Event>, id: ReqId)
  {
    forall e :: e in es ==> !(e.InvokeEv? && e.id == id) && !(e.BindEv? && e.id == id)
  }

  // ---------------------------------------------------------------------------------------
  // What a state says about one request

  ghost function AnswersTo(answers: seq<Answer>, id: ReqId): (r: seq<Answer>)
  {
    if answers == [] then []
    else
      var last := answers[|answers| - 1];
      AnswersTo(answers[..|answers| - 1], id) + if last.id == id then [last] else []
  }

  lemma AnswersToAppend(answers: seq<Answer>, a: Answer, id: ReqId)
    ensures AnswersTo(answers + [a], id) == AnswersTo(answers, id) + if a.id == id then [a] else []
  {
    assert (answers + [a])[..|answers|] == answers;
  }

  ghost function Count(queue: seq<QueueRec>, id: ReqId): nat
  {
    if queue == [] then 0 else (if queue[0].id == id then 1 else 0) + Count(queue[1..], id)
  }

  lemma {:induction false} CountAppend(queue: seq<QueueRec>, r: QueueRec, id: ReqId)
    ensures Count(queue + [r], id) == Count(queue, id) + if r.id == id then 1 else 0
  {
    if queue != [] {
      assert (queue + [r])[1..] == queue[1..] + [r];
      CountAppend(queue[1..], r, id);
    }
  }

  /** The places a request can be in. */
  datatype Places = Places(answers: seq<Answer>, queued: nat, slots: set<MsgId>, cancelled: nat, lost: nat)
  {
    ghost function Total(): nat { |answers| + queued + |slots| + cancelled + lost }
  }

  ghost function Where(s: State, id: ReqId): (p: Places)
  {
    Places(AnswersTo(s.answers, id), Count(s.queue, id), s.Slots(id), s.cancelled[id], Count(s.lost, id))
  }

  /** A request that is issued only as a two-way invocation. */
  ghost predicate OnlyInvoked(s: State, id: ReqId)
  {
    && (forall m :: m in s.Slots(id) ==> m in s.sent && s.sent[m] == InvokeMsg)
    && (forall i :: 0 <= i < |s.queue| && s.queue[i].id == id ==> s.queue[i].InvokeRec? && s.queue[i].twoWay)
  }

  lemma ToldPlaces(s: State, a: Answer, id: ReqId)
    ensures Where(s.Told(a), id) == Where(s, id).(answers := Where(s, id).answers + if a.id == id then [a] else [])
  {
    AnswersToAppend(s.answers, a, id);
    assert s.Told(a).Slots(id) == s.Slots(id);
  }

  lemma QueuedPlaces(s: State, r: QueueRec, id: ReqId)
    ensures Where(s.Queued(r), id) == Where(s, id).(queued := Where(s, id).queued + if r.id == id then 1 else 0)
  {
    CountAppend(s.queue, r, id);
    assert s.Queued(r).Slots(id) == s.Slots(id);
  }

  lemma ServersPlaces(s: State, sv: Servers, id: ReqId)
    ensures Where(s.(servers := sv), id) == Where(s, id)
    ensures OnlyInvoked(s, id) ==> OnlyInvoked(s.(servers := sv), id)
  {
    assert s.(servers := sv).Slots(id) == s.Slots(id);
  }

  /** What an invocation of id' does to the places of id: one more for id', nothing for others. */
  ghost predicate OneMore(s: State, t: State, id': ReqId, twoWay: bool, id: ReqId)
  {
    && (id' != id ==> Where(t, id) == Where(s, id))
    && (id' == id && twoWay ==> Where(t, id).Total() == Where(s, id).Total() + 1)
    && (OnlyInvoked(s, id) && (id' == id ==> twoWay) ==> OnlyInvoked(t, id))
  }

  lemma ToldIsOneMore(s: State, id': ReqId, st: InvokeStatus, twoWay: bool, id: ReqId)
    ensures OneMore(s, s.Told(InvokeAnswer(id', st)), id', twoWay, id)
  {
    ToldPlaces(s, InvokeAnswer(id', st), id);
    assert s.Told(InvokeAnswer(id', st)).Slots(id) == s.Slots(id);
  }

  lemma QueuedIsOneMore(s: State, id': ReqId, svid: Svid, twoWay: bool, id: ReqId)
    ensures OneMore(s, s.Queued(InvokeRec(id', svid, twoWay)), id', twoWay, id)
  {
    QueuedPlaces(s, InvokeRec(id', svid, twoWay), id);
    assert s.Queued(InvokeRec(id', svid, twoWay)).Slots(id) == s.Slots(id);
  }

  lemma SlotsOfOne(requests: map<MsgId, ReqId>, m: MsgId, id': ReqId, id: ReqId)
    requires m !in requests
    ensures SlotsIn(requests[m := id'], id) == SlotsIn(requests, id) + if id' == id then {m} else {}
  {
  }

  lemma SendIsOneMore(s: State, id': ReqId, twoWay: bool, id: ReqId)
    requires s.Valid()
    ensures Send(s, id', twoWay).Valid() && OneMore(s, Send(s, id', twoWay), id', twoWay, id)
  {
    SlotsOfOne(s.requests, s.nextMsg, id', id);
  }

  /** One invocation puts its request in exactly one more place and leaves the others alone. */
  lemma InvokePlaces(s: State, id': ReqId, svid: Svid, twoWay: bool, env: Env, id: ReqId)
    requires s.Valid()
    ensures var t := Invoke(s, id', svid, twoWay, env); t.Valid() && OneMore(s, t, id', twoWay, id)
  {
    var (sv, reception) := Approach(s.servers, svid, env);
    var t := s.(servers := sv);
    match reception {
      case Gone => ToldIsOneMore(t, id', SysEx, twoWay, id);
      case NotReady => QueuedIsOneMore(t, id', svid, twoWay, id);
      case Ready(ior) =>
        if twoWay && s.forward {
          ToldIsOneMore(t, id', Forward(ior), twoWay, id);
        } else {
          SendIsOneMore(t, id', twoWay, id);
        }
    }
    AfterServers(s, sv, Invoke(s, id', svid, twoWay, env), id', twoWay, id);
  }

  lemma AfterServers(s: State, sv: Servers, t: State, id': ReqId, twoWay: bool, id: ReqId)
    requires OneMore(s.(servers := sv), t, id', twoWay, id)
    ensures OneMore(s, t, id', twoWay, id)
  {
    ServersPlaces(s, sv, id);
  }

  lemma SlotsOfMany(requests: map<MsgId, ReqId>, first: MsgId, n: nat, id': ReqId, id: ReqId)
    requires forall m :: m in requests ==> m < first
    ensures SlotsIn(WithMany(requests, first, n, id'), id) == SlotsIn(requests, id)
            + if id' == id then FreshIds(first, n) else {}
  {
    WithManyAt(requests, first, n, id');
  }

  /** The slots of a broadcast are new and all belong to it. */
  lemma BroadcastPlaces(s: State, id': ReqId, id: ReqId)
    requires s.Valid()
    ensures var t := Broadcast(s, id');
            && t.Valid()
            && Where(t, id) == Where(s, id).(slots := s.Slots(id) +
                 if id' == id then FreshIds(s.nextMsg, |s.servers.Active()|) else {})
            && (OnlyInvoked(s, id) && id' != id ==> OnlyInvoked(t, id))
            && (forall m :: m in s.sent ==> m in t.sent && t.sent[m] == s.sent[m])
            && (forall m :: s.nextMsg <= m < t.nextMsg ==> m in t.sent && t.sent[m] == BindMsg)
  {
    var n := |s.servers.Active()|;
    SlotsOfMany(s.requests, s.nextMsg, n, id', id);
    WithManyAt(s.requests, s.nextMsg, n, id');
    WithManyAt(s.sent, s.nextMsg, n, BindMsg);
  }

  lemma BindPlaces(s: State, id': ReqId, repoid: string, tag: string, env: Env, id: ReqId)
    requires s.Valid() && id' != id
    ensures var t := Bind(s, id', repoid, tag, env).0;
            t.Valid() && Where(t, id) == Where(s, id) && (OnlyInvoked(s, id) ==> OnlyInvoked(t, id))
  {
    hide StartAll, AnswersTo, Count;
    var (sv, ready) := StartAll(s.servers, env.Serving(repoid, tag), env, AllUp);
    var s1 := s.(servers := sv);
    ServersPlaces(s, sv, id);
    match ready
    case Refused => ToldPlaces(s1, BindAnswer(id', LocateUnknown), id);
    case Waiting => QueuedPlaces(s1, BindRec(id', repoid, tag), id);
    case AllUp => BroadcastPlaces(s1, id', id);
  }

  lemma CancelPlaces(s: State, id': ReqId, id: ReqId)
    requires s.Valid()
    ensures var t := Cancel(s, id');
            && t.Valid()
            && Where(t, id) == (if id' == id
                 then Where(s, id).(slots := {}, cancelled := s.cancelled[id] + |s.Slots(id)|) else Where(s, id))
            && (OnlyInvoked(s, id) ==> OnlyInvoked(t, id))
  {
    var t := Cancel(s, id');
    assert t.Slots(id) == if id' == id then {} else s.Slots(id);
  }

  lemma ErasePlaces(s: State, m: MsgId, id: ReqId)
    requires s.Valid() && m in s.requests
    ensures var t := Erase(s, m);
            && t.Valid()
            && Where(t, id) == Where(s, id).(slots := s.Slots(id) - {m})
            && (OnlyInvoked(s, id) ==> OnlyInvoked(t, id))
  {
    assert Erase(s, m).Slots(id) == s.Slots(id) - {m};
  }

  /** Nothing changes for the request id. */
  ghost predicate SameFor(s: State, t: State, id: ReqId)
  {
    t.Valid() && Where(t, id) == Where(s, id) && (OnlyInvoked(s, id) ==> OnlyInvoked(t, id))
  }

  /** A reply to a bind concerns the one request its slot belongs to. */
  lemma BindReplyPlaces(s: State, m: MsgId, stat: LocateStatus, id: ReqId)
    requires s.Valid() && (m in s.requests ==> s.requests[m] != id)
    ensures SameFor(s, NotifyBind(s, m, stat), id)
  {
    if m in s.requests {
      var id', s1 := s.requests[m], Erase(s, m);
      EraseOther(s, m, id);
      ToldOther(s1, BindAnswer(id', stat), id);
      CancelOther(s1.Told(BindAnswer(id', stat)), id', id);
    }
  }

  lemma EraseOther(s: State, m: MsgId, id: ReqId)
    requires s.Valid() && m in s.requests && s.requests[m] != id
    ensures SameFor(s, Erase(s, m), id)
  {
    ErasePlaces(s, m, id);
  }

  lemma ToldOther(s: State, a: Answer, id: ReqId)
    requires s.Valid() && a.id != id
    ensures SameFor(s, s.Told(a), id)
  {
    ToldPlaces(s, a, id);
    assert s.Told(a).Slots(id) == s.Slots(id);
  }

  lemma CancelOther(s: State, id': ReqId, id: ReqId)
    requires s.Valid() && id' != id
    ensures SameFor(s, Cancel(s, id'), id)
  {
    CancelPlaces(s, id', id);
  }

  /** A reply to an invocation turns its slot into an answer. */
  lemma InvokeReplyPlaces(s: State, m: MsgId, status: InvokeStatus, id: ReqId)
    requires s.Valid() && m in s.requests
    ensures var t := NotifyInvoke(s, m, status);
            && t.Valid()
            && (OnlyInvoked(s, id) ==> OnlyInvoked(t, id))
            && Where(t, id).Total() == Where(s, id).Total()
            && (s.requests[m] != id ==> Where(t, id) == Where(s, id))
  {
    ErasePlaces(s, m, id);
    ToldPlaces(Erase(s, m), InvokeAnswer(s.requests[m], status), id);
    assert NotifyInvoke(s, m, status).Slots(id) == Erase(s, m).Slots(id);
    assert m in s.Slots(s.requests[m]);
  }

  // ---------------------------------------------------------------------------------------
  // The queue

  lemma PopPlaces(s: State, id: ReqId)
    requires s.Valid() && s.queue != []
    ensures var t := s.(queue := s.queue[1..]);
            && t.Valid()
            && Where(t, id) == Where(s, id).(queued := Count(s.queue[1..], id))
            && (OnlyInvoked(s, id) ==> OnlyInvoked(t, id))
  {
    assert s.(queue := s.queue[1..]).Slots(id) == s.Slots(id);
  }

  lemma LostPlaces(s: State, r: QueueRec, id: ReqId)
    requires s.Valid()
    ensures var t := s.(lost := s.lost + [r]);
            && t.Valid()
            && Where(t, id) == Where(s, id).(lost := Count(s.lost, id) + if r.id == id then 1 else 0)
            && (OnlyInvoked(s, id) ==> OnlyInvoked(t, id))
  {
    CountAppend(s.lost, r, id);
    assert s.(lost := s.lost + [r]).Slots(id) == s.Slots(id);
  }

  /** Executing the record of another request changes nothing for id. */
  lemma ExecOther(s: State, r: QueueRec, env: Env, id: ReqId)
    requires s.Valid() && r.id != id
    ensures SameFor(s, Exec(s, r, env), id)
  {
    match r
    case InvokeRec(id', svid, twoWay) => InvokePlaces(s, id', svid, twoWay, env, id);
    case BindRec(id', repoid, tag) =>
      BindPlaces(s, id', repoid, tag, env, id);
      ToldOther(Bind(s, id', repoid, tag, env).0, BindAnswer(id', LocateUnknown), id);
  }

  /** Taking one record off the queue and executing or dropping it. */
  function PassStep(s: State, seen: set<ReqId>, env: Env): State
    requires s.queue != []
  {
    var r, rest := s.queue[0], s.(queue := s.queue[1..]);
    if r.id in seen then rest.(lost := rest.lost + [r]) else Exec(rest, r, env)
  }

  lemma PassStepPlaces(s: State, seen: set<ReqId>, env: Env, id: ReqId)
    requires s.Valid() && s.queue != []
    ensures PassStep(s, seen, env).Valid()
    ensures OnlyInvoked(s, id) ==>
              OnlyInvoked(PassStep(s, seen, env), id) &&
              Where(PassStep(s, seen, env), id).Total() == Where(s, id).Total()
    ensures s.queue[0].id != id ==> Where(PassStep(s, seen, env), id) == Where(s, id)
  {
    var r, rest := s.queue[0], s.(queue := s.queue[1..]);
    PopPlaces(s, id);
    if r.id in seen {
      LostPlaces(rest, r, id);
    } else if r.id != id {
      ExecOther(rest, r, env, id);
    } else {
      PopPlaces(s, r.id + 1);
      ExecOther(rest, r, env, r.id + 1);
      if r.InvokeRec? { InvokePlaces(rest, r.id, r.svid, r.twoWay, env, id); }
    }
  }

  /** A pass over the queue neither creates nor destroys a request. */
  lemma {:induction false} PassPlaces(s: State, seen: set<ReqId>, env: Env, id: ReqId)
    requires s.Valid()
    ensures ExecPass(s, seen, env).Valid()
    ensures OnlyInvoked(s, id) ==>
              OnlyInvoked(ExecPass(s, seen, env), id) &&
              Where(ExecPass(s, seen, env), id).Total() == Where(s, id).Total()
    ensures Count(s.queue, id) == 0 ==> Where(ExecPass(s, seen, env), id) == Where(s, id)
    decreases Unseen(s.queue, seen), |s.queue|
  {
    if s.queue != [] {
      var r, rest := s.queue[0], s.(queue := s.queue[1..]);
      PassStepPlaces(s, seen, env, id);
      if r.id !in seen {
        ExecQueue(rest, r, env);
        UnseenShrinks(rest.queue, seen, r.id);
        UnseenAppend(rest.queue, r, seen + {r.id});
      }
      PassPlaces(PassStep(s, seen, env), if r.id in seen then seen else seen + {r.id}, env, id);
    }
  }

  lemma {:induction false} AnswersToConcat(a: seq<Answer>, b: seq<Answer>, id: ReqId)
    ensures AnswersTo(a + b, id) == AnswersTo(a, id) + AnswersTo(b, id)
  {
    if b == [] {
      assert a + b == a;
    } else {
      var front := b[..|b| - 1];
      assert (a + b)[..|a + b| - 1] == a + front;
      AnswersToConcat(a, front, id);
    }
  }

  lemma {:induction false} FailedOnce(queue: seq<QueueRec>, id: ReqId)
    ensures |AnswersTo(FailAnswers(queue), id)| == Count(queue, id)
  {
    if queue != [] {
      var first := FailAnswers(queue)[0];
      FailedOnce(queue[1..], id);
      AnswersToConcat([first], FailAnswers(queue[1..]), id);
      AnswersToAppend([], first, id);
      assert [] + [first] == [first];
    }
  }

  lemma FailPlaces(s: State, id: ReqId)
    requires s.Valid()
    ensures var t := FailAll(s);
            && t.Valid()
            && (OnlyInvoked(s, id) ==> OnlyInvoked(t, id))
            && Where(t, id).Total() == Where(s, id).Total()
            && (Count(s.queue, id) == 0 ==> Where(t, id) == Where(s, id))
  {
    AnswersToConcat(s.answers, FailAnswers(s.queue), id);
    FailedOnce(s.queue, id);
  }

  lemma LaterPlaces(s: State, r: (Servers, bool), id: ReqId)
    requires s.Valid()
    ensures SameFor(s, After(s, r), id)
  {
    ServersPlaces(s, r.0, id);
    assert After(s, r).Slots(id) == s.Slots(id);
  }

  // ---------------------------------------------------------------------------------------
  // Conservation

  /** No event moves a request out of sight: whatever happens to a two-way invocation, it stays
      in exactly as many places as before. */
  lemma StepConserves(s: State, e: Event, id: ReqId)
    requires s.Valid() && OnlyInvoked(s, id) && Legal(s, e) && NotReissued([e], id)
    ensures var t := Step(s, e);
            t.Valid() && OnlyInvoked(t, id) && Where(t, id).Total() == Where(s, id).Total()
  {
    assert e in [e];
    match e
    case InvokeEv(id', v, twoWay, env) => InvokePlaces(s, id', v, twoWay, env, id);
    case BindEv(id', repoid, tag, env) => BindPlaces(s, id', repoid, tag, env, id);
    case CancelEv(id') => CancelPlaces(s, id', id);
    case InvokeReplyEv(m, status) => InvokeReplyPlaces(s, m, status, id);
    case BindReplyEv(m, stat) =>
      assert m in s.requests && s.requests[m] == id ==> m in s.Slots(id);
      BindReplyPlaces(s, m, stat, id);
    case TimerEv(env) =>
      var s0 := s.(scheduled := false);
      assert s0.Slots(id) == s.Slots(id);
      PassPlaces(s0, {}, env, id);
    case ShutdownEv => FailPlaces(s, id);
    case _ => LaterPlaces(s, ServerStep(s.servers, e), id);
  }

  lemma {:induction false} RunConserves(s: State, es: seq<Event>, id: ReqId)
    requires s.Valid() && OnlyInvoked(s, id) && LegalRun(s, es) && NotReissued(es, id)
    ensures var t := Run(s, es);
            t.Valid() && OnlyInvoked(t, id) && Where(t, id).Total() == Where(s, id).Total()
    decreases |es|
  {
    if es != [] {
      StepConserves(s, es[0], id);
      RunConserves(Step(s, es[0]), es[1..], id);
    }
  }

  /** Conservation over whole runs. From the moment a two-way invocation is accepted it is, at
      every later point, in exactly one place: answered once, waiting in the queue, outstanding
      under one message id, cancelled while outstanding, or dropped by the queue. */
  lemma RequestInExactlyOnePlace(s: State, id: ReqId, svid: Svid, env: Env, es: seq<Event>)
    requires s.Valid() && Where(s, id).Total() == 0
    requires LegalRun(s, [InvokeEv(id, svid, true, env)] + es) && NotReissued(es, id)
    ensures var p := Where(Run(s, [InvokeEv(id, svid, true, env)] + es), id);
            && p.Total() == 1
            && |p.answers| <= 1 && |p.slots| <= 1
  {
    var e := InvokeEv(id, svid, true, env);
    var run := [e] + es;
    assert run[0] == e && run[1..] == es;
    NothingOutstanding(s, id);
    InvokePlaces(s, id, svid, true, env, id);
    RunConserves(Step(s, e), es, id);
  }

  lemma NothingOutstanding(s: State, id: ReqId)
    requires Where(s, id).Total() == 0
    ensures OnlyInvoked(s, id)
  {
    forall i | 0 <= i < |s.queue| ensures s.queue[i].id != id {
      CountFinds(s.queue, i);
    }
  }

  lemma {:induction false} CountFinds(queue: seq<QueueRec>, i: nat)
    requires i < |queue|
    ensures Count(queue, queue[i].id) > 0
  {
    if i > 0 { CountFinds(queue[1..], i - 1); }
  }
}
