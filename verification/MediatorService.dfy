/** What a server that has announced itself does for its clients, and how each operation of the life
    cycle ends or resumes its service. */
module MediatorService {
  import opened Mediator
  import opened MediatorBinds
  import opened MediatorLifecycle
  import opened MediatorQueue
  import opened MediatorRuns
  import opened Wrappers

  predicate IsActive(sv: Servers, v: Svid)
  {
    v in sv.svmap && sv.svmap[v].pstate == Active
  }

  predicate IsDown(sv: Servers, v: Svid)
  {
    sv.Inf(v).pstate == Holding || sv.Inf(v).pstate == Stopped
  }

  // ---------------------------------------------------------------------------------------
  // An Active server stays as it is

  /** Nothing changes for v if it is Active. */
  ghost predicate StaysActive(sv: Servers, sv': Servers, v: Svid)
  {
    IsActive(sv, v) ==> v in sv'.svmap && sv'.svmap[v] == sv.svmap[v]
  }

  lemma CreateActive(sv: Servers, u: Svid, env: Env, v: Svid)
    requires sv.Inf(u).pstate != Holding && sv.Inf(u).pstate != Stopped
    ensures StaysActive(sv, CreateServer(sv, u, env).0, v)
  {
  }

  lemma {:induction false} StartAllActive(sv: Servers, names: seq<Svid>, env: Env, sofar: Readiness, v: Svid)
    requires sofar != Refused
    ensures StaysActive(sv, StartAll(sv, names, env, sofar).0, v)
    decreases |names|
  {
    hide CreateServer;
    if names != [] {
      var u, inf := names[0], sv.Inf(names[0]);
      if inf.pstate != Active && inf.pstate != Stopped && inf.pstate != Holding {
        CreateActive(sv, u, env, v);
        var (sv1, ok) := CreateServer(sv, u, env);
        if ok { StartAllActive(sv1, names[1..], env, Waiting, v); }
      } else {
        StartAllActive(sv.Put(u, inf), names[1..], env, sofar, v);
      }
    }
  }

  lemma BindActive(s: State, id: ReqId, repoid: string, tag: string, env: Env, v: Svid)
    ensures StaysActive(s.servers, Bind(s, id, repoid, tag, env).0.servers, v)
  {
    StartAllActive(s.servers, env.Serving(repoid, tag), env, AllUp, v);
  }

  lemma InvokeActive(s: State, id: ReqId, u: Svid, twoWay: bool, env: Env, v: Svid)
    ensures StaysActive(s.servers, Invoke(s, id, u, twoWay, env).servers, v)
  {
    InvokeServers(s, id, u, twoWay, env);
    if u in s.servers.svmap && s.servers.svmap[u].pstate !in {Active, Holding, Stopped} {
      CreateActive(s.servers, u, env, v);
    }
  }

  lemma ExecActive(s: State, r: QueueRec, env: Env, v: Svid)
    ensures StaysActive(s.servers, Exec(s, r, env).servers, v)
  {
    match r
    case InvokeRec(id, u, twoWay) => InvokeActive(s, id, u, twoWay, env, v);
    case BindRec(id, repoid, tag) => BindActive(s, id, repoid, tag, env, v);
  }

  lemma {:induction false} PassActive(s: State, seen: set<ReqId>, env: Env, v: Svid)
    ensures StaysActive(s.servers, ExecPass(s, seen, env).servers, v)
    decreases Unseen(s.queue, seen), |s.queue|
  {
    hide Exec;
    if s.queue != [] {
      var r, rest := s.queue[0], s.(queue := s.queue[1..]);
      if r.id in seen {
        PassActive(rest.(lost := rest.lost + [r]), seen, env, v);
      } else {
        ExecQueue(rest, r, env);
        UnseenShrinks(rest.queue, seen, r.id);
        UnseenAppend(rest.queue, r, seen + {r.id});
        ExecActive(rest, r, env, v);
        PassActive(Exec(rest, r, env), seen + {r.id}, env, v);
      }
    }
  }

  /** The events that end the service of v. */
  predicate Ends(e: Event, v: Svid)
  {
    (e.DeactivateEv? || e.HoldEv? || e.StopEv? || e.ExitedEv?) && e.svid == v
  }

  ghost predicate StillActive(sv: Servers, sv': Servers, v: Svid)
  {
    IsActive(sv, v) ==> IsActive(sv', v)
  }

  lemma StepActive(s: State, e: Event, v: Svid)
    requires Legal(s, e) && !Ends(e, v)
    ensures StillActive(s.servers, Step(s, e).servers, v)
  {
    hide Invoke, Bind, Exec, ServerStep;
    match e
    case InvokeEv(id, u, twoWay, env) => InvokeActive(s, id, u, twoWay, env, v);
    case BindEv(id, repoid, tag, env) => BindActive(s, id, repoid, tag, env, v);
    case TimerEv(env) => PassActive(s.(scheduled := false), {}, env, v);
    case ShutdownEv =>
    case CancelEv(_) =>
    case InvokeReplyEv(_, _) =>
    case BindReplyEv(_, _) =>
    case _ => ServerStepActive(s.servers, e, v);
  }

  lemma ServerStepActive(sv: Servers, e: Event, v: Svid)
    requires IsServerEvent(e) && (e.ExitedEv? ==> e.svid in sv.svmap) && !Ends(e, v)
    ensures StillActive(sv, ServerStep(sv, e).0, v)
  {
  }

  lemma {:induction false} RunActive(s: State, es: seq<Event>, v: Svid)
    requires LegalRun(s, es) && forall e :: e in es ==> !Ends(e, v)
    ensures StillActive(s.servers, Run(s, es).servers, v)
    decreases |es|
  {
    hide Step, Legal;
    if es != [] {
      assert es[0] in es && forall e :: e in es[1..] ==> e in es;
      StepActive(s, es[0], v);
      RunActive(Step(s, es[0]), es[1..], v);
    }
  }

  // ---------------------------------------------------------------------------------------
  // Service

  /** The client of a two-way invocation is told the address of the server, if the mediator forwards. */
  ghost predicate Forwarded(s: State, t: State, id: ReqId, ior: string)
  {
    && t.servers == s.servers && t.requests == s.requests && t.sent == s.sent && t.queue == s.queue
    && t.answers == s.answers + [InvokeAnswer(id, Forward(ior))]
  }

  /** The invocation is sent under a new message id, with a slot for the reply if there is to be one. */
  ghost predicate Sent(s: State, t: State, id: ReqId, twoWay: bool)
  {
    && t.servers == s.servers && t.queue == s.queue && t.answers == s.answers
    && t.sent == s.sent[s.nextMsg := InvokeMsg] && t.nextMsg == s.nextMsg + 1
    && t.requests == if twoWay then s.requests[s.nextMsg := id] else s.requests
  }

  ghost predicate Served(s: State, t: State, id: ReqId, v: Svid, twoWay: bool)
    requires v in s.servers.svmap
  {
    if twoWay && s.forward then Forwarded(s, t, id, s.servers.svmap[v].ior) else Sent(s, t, id, twoWay)
  }

  lemma ActiveServes(s: State, id: ReqId, v: Svid, twoWay: bool, env: Env)
    requires IsActive(s.servers, v)
    ensures Served(s, Invoke(s, id, v, twoWay, env), id, v, twoWay)
  {
  }

  lemma Announces(s: State, v: Svid)
    requires !IsDown(s.servers, v)
    ensures IsActive(Step(s, ActivateEv(v)).servers, v)
    ensures var t := Step(s, ActivateEv(v));
            && t.servers.svmap[v].ior == s.servers.Inf(v).ior && t.queue == s.queue
            && (s.queue != [] ==> t.scheduled)
            && t.requests == s.requests && t.sent == s.sent && t.answers == s.answers && t.lost == s.lost
            && t.nextMsg == s.nextMsg && t.forward == s.forward && t.cancelled == s.cancelled
  {
  }

  /** A server that announces itself while it is not held or stopped serves every invocation from then
      on, whatever else happens, until it is deactivated, held or stopped, or its process ends. */
  lemma AnnouncedServerServes(s: State, v: Svid, es: seq<Event>, id: ReqId, twoWay: bool, env: Env)
    requires !IsDown(s.servers, v)
    requires LegalRun(Step(s, ActivateEv(v)), es) && forall e :: e in es ==> !Ends(e, v)
    ensures var t := Run(Step(s, ActivateEv(v)), es);
            IsActive(t.servers, v) && Served(t, Invoke(t, id, v, twoWay, env), id, v, twoWay)
  {
    Announces(s, v);
    RunActive(Step(s, ActivateEv(v)), es, v);
    ActiveServes(Run(Step(s, ActivateEv(v)), es), id, v, twoWay, env);
  }

  // ---------------------------------------------------------------------------------------
  // What waited for the announcement

  /** Where a queued invocation of an Active server ends up: answered with the address, or sent under
      a message id that is new, which is outstanding if there is to be a reply. */
  ghost predicate ServedFromQueue(s: State, t: State, id: ReqId, twoWay: bool, ior: string)
  {
    var p, q := Where(s, id), Where(t, id);
    && q.queued == 0 && q.lost == p.lost && q.cancelled == p.cancelled
    && if twoWay && s.forward then q.slots == p.slots && q.answers == p.answers + [InvokeAnswer(id, Forward(ior))]
       else q.answers == p.answers && exists m :: SentAs(s, t, id, twoWay, m)
  }

  ghost predicate SentAs(s: State, t: State, id: ReqId, twoWay: bool, m: MsgId)
  {
    && m >= s.nextMsg && m in t.sent && t.sent[m] == InvokeMsg
    && t.Slots(id) == s.Slots(id) + if twoWay then {m} else {}
  }

  lemma {:induction false} OneRecord(queue: seq<QueueRec>, k: nat, seen: set<ReqId>)
    requires k < |queue| && DistinctIds(queue, seen)
    ensures Count(queue, queue[k].id) == 1
  {
    if k > 0 {
      OneRecord(queue[1..], k - 1, seen);
    } else {
      NotThere(queue[1..], queue[0].id);
    }
  }

  lemma {:induction false} NotThere(queue: seq<QueueRec>, id: ReqId)
    requires forall i :: 0 <= i < |queue| ==> queue[i].id != id
    ensures Count(queue, id) == 0
  {
    if queue != [] { NotThere(queue[1..], id); }
  }

  lemma {:induction false} CountConcat(a: seq<QueueRec>, b: seq<QueueRec>, id: ReqId)
    ensures Count(a + b, id) == Count(a, id) + Count(b, id)
  {
    if a == [] {
      assert a + b == b;
    } else {
      assert (a + b)[1..] == a[1..] + b;
      CountConcat(a[1..], b, id);
    }
  }

  lemma Advances(s: State, r: QueueRec, env: Env)
    ensures var t := Exec(s, r, env); t.nextMsg >= s.nextMsg && t.forward == s.forward
  {
    match r
    case InvokeRec(id, u, twoWay) => InvokeAdvances(s, id, u, twoWay, env);
    case BindRec(id, repoid, tag) => BindAdvances(s, id, repoid, tag, env);
  }

  lemma InvokeAdvances(s: State, id: ReqId, u: Svid, twoWay: bool, env: Env)
    ensures var t := Invoke(s, id, u, twoWay, env); t.nextMsg >= s.nextMsg && t.forward == s.forward
  {
    hide Approach;
  }

  lemma BindAdvances(s: State, id: ReqId, repoid: string, tag: string, env: Env)
    ensures var t := Bind(s, id, repoid, tag, env).0; t.nextMsg >= s.nextMsg && t.forward == s.forward
  {
    hide StartAll;
  }

  /** Executing the record serves the invocation. */
  lemma OwnRecord(s: State, id: ReqId, v: Svid, twoWay: bool, env: Env)
    requires s.Valid() && IsActive(s.servers, v) && Count(s.queue, id) == 0
    ensures var t := Invoke(s, id, v, twoWay, env);
            && t.Valid() && Count(t.queue, id) == 0
            && ServedFromQueue(s, t, id, twoWay, s.servers.svmap[v].ior)
  {
    hide AnswersTo, Count;
    var ior := s.servers.svmap[v].ior;
    ActiveServes(s, id, v, twoWay, env);
    InvokePlaces(s, id, v, twoWay, env, id);
    var t := Invoke(s, id, v, twoWay, env);
    if twoWay && s.forward {
      AnswersToAppend(s.answers, InvokeAnswer(id, Forward(ior)), id);
      assert t.Slots(id) == s.Slots(id);
    } else {
      if twoWay { SlotsOfOne(s.requests, s.nextMsg, id, id); }
      assert SentAs(s, t, id, twoWay, s.nextMsg);
    }
  }

  /** The rest of the pass does not touch it. */
  lemma AfterRecord(s: State, t: State, seen: set<ReqId>, env: Env, id: ReqId, twoWay: bool, ior: string)
    requires t.Valid() && Count(t.queue, id) == 0 && ServedFromQueue(s, t, id, twoWay, ior)
    ensures ServedFromQueue(s, ExecPass(t, seen, env), id, twoWay, ior)
  {
    PassPlaces(t, seen, env, id);
    PassGrows(t, seen, env);
    hide Where, ExecPass, Grows;
    var u := ExecPass(t, seen, env);
    assert Where(u, id) == Where(t, id);
    SameSlots(t, u, id);
    if !(twoWay && s.forward) {
      var m :| SentAs(s, t, id, twoWay, m);
      GrownMessage(t, u, m);
      assert SentAs(s, u, id, twoWay, m);
    }
  }

  lemma SameSlots(t: State, u: State, id: ReqId)
    requires Where(u, id) == Where(t, id)
    ensures u.Slots(id) == t.Slots(id)
  {
  }

  lemma GrownMessage(t: State, u: State, m: MsgId)
    requires Grows(t, u) && m in t.sent
    ensures m in u.sent && u.sent[m] == t.sent[m]
  {
  }

  /** Seen from before a step that left the request alone. */
  lemma FromBefore(s: State, t: State, u: State, id: ReqId, twoWay: bool, ior: string)
    requires Where(t, id).(queued := 0) == Where(s, id).(queued := 0)
    requires t.nextMsg >= s.nextMsg && t.forward == s.forward
    requires ServedFromQueue(t, u, id, twoWay, ior)
    ensures ServedFromQueue(s, u, id, twoWay, ior)
  {
    hide AnswersTo, Count;
    if !(twoWay && s.forward) {
      var m :| SentAs(t, u, id, twoWay, m);
      assert SentAs(s, u, id, twoWay, m);
    }
  }

  lemma FirstExecuted(s: State, todo: seq<QueueRec>, back: seq<QueueRec>, seen: set<ReqId>, env: Env)
      returns (more: seq<QueueRec>)
    requires todo != [] && s.queue == todo + back && todo[0].id !in seen
    ensures var t := Exec(s.(queue := s.queue[1..]), todo[0], env);
            && t.queue == todo[1..] + (back + more) && (more == [] || more == [todo[0]])
            && ExecPass(s, seen, env) == ExecPass(t, seen + {todo[0].id}, env)
  {
    hide Exec;
    var r, rest := todo[0], s.(queue := s.queue[1..]);
    assert s.queue[0] == r && s.queue[1..] == todo[1..] + back;
    ExecQueue(rest, r, env);
    more := if Exec(rest, r, env).queue == rest.queue then [] else [r];
    assert todo[1..] + back + [r] == todo[1..] + (back + [r]) && todo[1..] + back == todo[1..] + (back + []);
  }

  lemma {:induction false} ServedByPass(s: State, todo: seq<QueueRec>, back: seq<QueueRec>, seen: set<ReqId>, env: Env,
                                        k: nat, v: Svid)
    requires s.Valid() && s.queue == todo + back && DistinctIds(todo, seen) && IsActive(s.servers, v)
    requires forall i :: 0 <= i < |back| ==> back[i].id in seen
    requires k < |todo| && todo[k].InvokeRec? && todo[k].svid == v
    ensures ServedFromQueue(s, ExecPass(s, seen, env), todo[k].id, todo[k].twoWay, s.servers.svmap[v].ior)
    decreases k
  {
    hide Exec, ExecPass, Where, ServedFromQueue;
    var r, rest, id, ior := todo[0], s.(queue := s.queue[1..]), todo[k].id, s.servers.svmap[v].ior;
    var t := Exec(rest, r, env);
    var more := FirstExecuted(s, todo, back, seen, env);
    RestPlaces(s, todo, back, seen, k);
    ActiveAfter(rest, r, env, v);
    if k == 0 {
      ExecIsInvoke(rest, r, env);
      OwnRecord(rest, id, v, r.twoWay, env);
      AfterRecord(rest, t, seen + {r.id}, env, id, r.twoWay, ior);
      FromBefore(s, rest, ExecPass(s, seen, env), id, r.twoWay, ior);
    } else {
      assert todo[1..][k - 1] == todo[k];
      ExecOther(rest, r, env, id);
      Advances(rest, r, env);
      ServedByPass(t, todo[1..], back + more, seen + {r.id}, env, k - 1, v);
      FromBefore(rest, t, ExecPass(s, seen, env), id, todo[k].twoWay, ior);
      FromBefore(s, rest, ExecPass(s, seen, env), id, todo[k].twoWay, ior);
    }
  }

  lemma ExecIsInvoke(s: State, r: QueueRec, env: Env)
    requires r.InvokeRec?
    ensures Exec(s, r, env) == Invoke(s, r.id, r.svid, r.twoWay, env)
  {
  }

  lemma ActiveAfter(s: State, r: QueueRec, env: Env, v: Svid)
    requires IsActive(s.servers, v)
    ensures var t := Exec(s, r, env); IsActive(t.servers, v) && t.servers.svmap[v] == s.servers.svmap[v]
  {
    ExecActive(s, r, env, v);
  }

  /** Taking the first record off the queue. */
  lemma RestPlaces(s: State, todo: seq<QueueRec>, back: seq<QueueRec>, seen: set<ReqId>, k: nat)
    requires s.Valid() && s.queue == todo + back && DistinctIds(todo, seen) && k < |todo|
    requires forall i :: 0 <= i < |back| ==> back[i].id in seen
    ensures var rest, id := s.(queue := s.queue[1..]), todo[k].id;
            && rest.Valid() && Where(rest, id).(queued := 0) == Where(s, id).(queued := 0)
            && rest.nextMsg == s.nextMsg && rest.forward == s.forward && rest.servers == s.servers
            && (k == 0 ==> Count(rest.queue, id) == 0)
  {
    var id := todo[k].id;
    PopPlaces(s, id);
    if k == 0 {
      OneRecord(todo, 0, seen);
      NotThere(back, id);
      CountConcat(todo, back, id);
    }
  }

  lemma ServedAtTimer(t: State, v: Svid, k: nat, env: Env)
    requires t.Valid() && IsActive(t.servers, v) && DistinctIds(t.queue, {})
    requires k < |t.queue| && t.queue[k].InvokeRec? && t.queue[k].svid == v
    ensures var u := ExecNow(t, env);
            u.queue == [] && ServedFromQueue(t, u, t.queue[k].id, t.queue[k].twoWay, t.servers.svmap[v].ior)
  {
    hide ExecPass, ServedFromQueue, DistinctIds, AnswersTo, Count;
    var t0, id := t.(scheduled := false), t.queue[k].id;
    assert t0.queue + [] == t0.queue;
    ServedByPass(t0, t0.queue, [], {}, env, k, v);
    PassLosesNothingIff(t, env);
    assert t0.Slots(id) == t.Slots(id);
    FromBefore(t, t0, ExecNow(t, env), id, t.queue[k].twoWay, t.servers.svmap[v].ior);
  }

  lemma RunOfTwo(s: State, e0: Event, e1: Event)
    requires Legal(s, e0) && Legal(Step(s, e0), e1)
    ensures LegalRun(s, [e0, e1]) && Run(s, [e0, e1]) == Step(Step(s, e0), e1)
  {
    hide Step, Legal;
    var s1, s2 := Step(s, e0), Step(Step(s, e0), e1);
    assert [e1][1..] == [] && [e0, e1][1..] == [e1];
    assert LegalRun(s2, []) && Run(s2, []) == s2;
    assert LegalRun(s1, [e1]) && Run(s1, [e1]) == s2;
  }

  /** A queued invocation of a server that announces itself is served by the pass that the announcement
      has scheduled, and it is not put back. */
  lemma QueuedInvocationIsServed(s: State, v: Svid, k: nat, env: Env)
    requires s.Valid() && !IsDown(s.servers, v) && DistinctIds(s.queue, {})
    requires k < |s.queue| && s.queue[k].InvokeRec? && s.queue[k].svid == v
    ensures var es := [ActivateEv(v), TimerEv(env)];
            && LegalRun(s, es) && Run(s, es).queue == []
            && ServedFromQueue(s, Run(s, es), s.queue[k].id, s.queue[k].twoWay, s.servers.Inf(v).ior)
  {
    hide Step, Legal, ExecNow, Where, ServedFromQueue, DistinctIds, IsDown;
    var id := s.queue[k].id;
    AfterAnnouncement(s, v, id, env);
    var t := Step(s, ActivateEv(v));
    ServedAtTimer(t, v, k, env);
    RunOfTwo(s, ActivateEv(v), TimerEv(env));
    FromBefore(s, t, ExecNow(t, env), id, s.queue[k].twoWay, s.servers.Inf(v).ior);
  }

  lemma AfterAnnouncement(s: State, v: Svid, id: ReqId, env: Env)
    requires s.Valid() && !IsDown(s.servers, v) && s.queue != []
    ensures var t := Step(s, ActivateEv(v));
            && Legal(s, ActivateEv(v)) && Legal(t, TimerEv(env)) && Step(t, TimerEv(env)) == ExecNow(t, env)
            && t.Valid() && IsActive(t.servers, v) && t.servers.svmap[v].ior == s.servers.Inf(v).ior
            && t.queue == s.queue && t.nextMsg == s.nextMsg && t.forward == s.forward && Where(t, id) == Where(s, id)
  {
    hide ExecNow, AnswersTo, Count;
    Announces(s, v);
    assert Step(s, ActivateEv(v)).Slots(id) == s.Slots(id);
  }

  // ---------------------------------------------------------------------------------------
  // The operations of the life cycle, by what the next invocation meets

  predicate Known(v: Svid, env: Env)
  {
    v in env.commands && env.commands[v] != ""
  }

  /** The server is launched; the invocation waits for it if there is a process, and fails if not. */
  ghost predicate Starts(s: State, t: State, id: ReqId, v: Svid, twoWay: bool, env: Env)
  {
    && t.servers.launches == s.servers.launches + [Launch(v, s.servers.nextPid, env.now)]
    && t.queue == s.queue + (if env.forkOk then [InvokeRec(id, v, twoWay)] else [])
    && t.answers == s.answers + (if env.forkOk then [] else [InvokeAnswer(id, SysEx)])
    && t.requests == s.requests && t.sent == s.sent
  }

  /** The invocation waits, and nothing is launched. */
  ghost predicate Waits(s: State, t: State, id: ReqId, v: Svid, twoWay: bool)
  {
    && t.servers.launches == s.servers.launches && t.queue == s.queue + [InvokeRec(id, v, twoWay)]
    && t.answers == s.answers && t.requests == s.requests && t.sent == s.sent
  }

  /** The invocation fails, and nothing is launched. */
  ghost predicate Fails(s: State, t: State, id: ReqId)
  {
    && t.servers.launches == s.servers.launches && t.queue == s.queue
    && t.answers == s.answers + [InvokeAnswer(id, SysEx)] && t.requests == s.requests && t.sent == s.sent
  }

  predicate InState(sv: Servers, v: Svid, pstate: ServerState)
  {
    v in sv.svmap && sv.svmap[v].pstate == pstate
  }

  lemma InactiveStarts(s: State, id: ReqId, v: Svid, twoWay: bool, env: Env)
    requires InState(s.servers, v, Inactive) && Known(v, env)
    ensures Starts(s, Invoke(s, id, v, twoWay, env), id, v, twoWay, env)
    ensures InState(Invoke(s, id, v, twoWay, env).servers, v, Started)
    ensures Invoke(s, id, v, twoWay, env).servers.svmap[v].proc == Some(s.servers.nextPid)
  {
  }

  lemma StartedWaits(s: State, id: ReqId, v: Svid, twoWay: bool, env: Env)
    requires InState(s.servers, v, Started)
    ensures Waits(s, Invoke(s, id, v, twoWay, env), id, v, twoWay)
  {
  }

  /** The service of an Active server ends with its deactivation and with its process; the next
      invocation launches it, without any pause. */
  lemma EndedServerStartsAgain(s: State, e: Event, v: Svid, id: ReqId, twoWay: bool, env: Env)
    requires IsActive(s.servers, v) && Legal(s, e) && (e.DeactivateEv? || e.ExitedEv?) && e.svid == v && Known(v, env)
    ensures Starts(Step(s, e), Invoke(Step(s, e), id, v, twoWay, env), id, v, twoWay, env)
  {
    hide Invoke;
    InactiveStarts(Step(s, e), id, v, twoWay, env);
  }

  /** The process of a server that was launched may end before the server announces itself, or after it
      has announced itself and its service has ended. */
  lemma LaunchedProcess(s: State, v: Svid, id: ReqId, twoWay: bool, env: Env, now: int)
    requires InState(s.servers, v, Inactive) && Known(v, env)
    ensures var t := Invoke(s, id, v, twoWay, env);
            && Legal(t, ExitedEv(v, now)) && Legal(t, ActivateEv(v))
            && Legal(Step(t, ActivateEv(v)), ExitedEv(v, now)) && Legal(Step(t, ActivateEv(v)), DeactivateEv(v))
  {
    hide Invoke;
    InactiveStarts(s, id, v, twoWay, env);
  }

  /** A server that was launched and has not announced itself is not launched a second time. */
  lemma StartedOnce(s: State, v: Svid, id: ReqId, twoWay: bool, env: Env, id': ReqId, twoWay': bool, env': Env)
    requires Starts(s, Invoke(s, id, v, twoWay, env), id, v, twoWay, env)
    ensures var t := Invoke(s, id, v, twoWay, env); Waits(t, Invoke(t, id', v, twoWay', env'), id', v, twoWay')
  {
    LaunchedIsStarted(s, id, v, twoWay, env);
    hide Invoke, Starts, Waits;
    StartedWaits(Invoke(s, id, v, twoWay, env), id', v, twoWay', env');
  }

  lemma LaunchedIsStarted(s: State, id: ReqId, v: Svid, twoWay: bool, env: Env)
    requires |Invoke(s, id, v, twoWay, env).servers.launches| > |s.servers.launches|
    ensures InState(Invoke(s, id, v, twoWay, env).servers, v, Started)
  {
    InvokeServers(s, id, v, twoWay, env);
    hide Invoke;
  }

  /** Invocations of a server that was put on hold or stopped wait. */
  lemma HeldOrStopped(s: State, e: Event, v: Svid, id: ReqId, twoWay: bool, env: Env)
    requires Legal(s, e) && (e == HoldEv(v) || e == StopEv(v))
    ensures Waits(Step(s, e), Invoke(Step(s, e), id, v, twoWay, env), id, v, twoWay)
  {
  }

  /** Letting a held, stopped or failed server continue has the queue executed, and the next invocation
      launches the server, whatever time its failure was; a running server goes on as it is. */
  lemma Continued(s: State, v: Svid, id: ReqId, twoWay: bool, env: Env)
    requires Legal(s, ContinueEv(v)) && Known(v, env)
    ensures var t := Step(s, ContinueEv(v));
            if IsDown(s.servers, v) || s.servers.Inf(v).pstate == Failed then
              (s.queue != [] ==> t.scheduled) && Starts(t, Invoke(t, id, v, twoWay, env), id, v, twoWay, env)
            else t.servers.Inf(v) == s.servers.Inf(v) && t.scheduled == s.scheduled
  {
    hide Invoke, Starts;
    var t := Step(s, ContinueEv(v));
    if InState(t.servers, v, Inactive) { InactiveStarts(t, id, v, twoWay, env); }
  }

  /** Activating a server that was put on hold makes it Active again, with its address, unless it was
      stopped before. */
  lemma HeldAndForced(s: State, v: Svid, env: Env, id: ReqId, twoWay: bool, env': Env)
    requires Legal(s, HoldEv(v)) && s.servers.Inf(v).pstate != Stopped
    ensures var t := Step(Step(s, HoldEv(v)), ForceEv(v, env));
            && IsActive(t.servers, v) && t.servers.svmap[v].ior == s.servers.Inf(v).ior
            && t.servers.launches == s.servers.launches
            && Served(t, Invoke(t, id, v, twoWay, env'), id, v, twoWay)
  {
  }

  /** When a held server ends, activating it launches it. */
  lemma HeldEnds(s: State, v: Svid, e: Event, env: Env)
    requires Legal(s, HoldEv(v)) && Legal(Step(s, HoldEv(v)), e) && (e.DeactivateEv? || e.ExitedEv?) && e.svid == v
    requires s.servers.Inf(v).pstate != Stopped && Known(v, env)
    ensures var t := Step(Step(s, HoldEv(v)), e);
            LaunchedBy(t, Step(t, ForceEv(v, env)), v, env)
  {
  }

  /** The server is launched and nothing else happens. */
  ghost predicate LaunchedBy(s: State, t: State, v: Svid, env: Env)
  {
    && t.servers.launches == s.servers.launches + [Launch(v, s.servers.nextPid, env.now)]
    && t.queue == s.queue && t.answers == s.answers
  }

  /** A stopped server is launched by activating it as soon as its process is gone, and not before. */
  lemma StoppedAndForced(s: State, v: Svid, now: int, env: Env)
    requires Legal(s, StopEv(v)) && Known(v, env)
    ensures var t := Step(s, StopEv(v));
            if s.servers.Inf(v).proc.Some? then
              && Step(t, ForceEv(v, env)).servers == t.servers && Legal(t, ExitedEv(v, now))
              && LaunchedBy(Step(t, ExitedEv(v, now)), Step(Step(t, ExitedEv(v, now)), ForceEv(v, env)), v, env)
            else LaunchedBy(t, Step(t, ForceEv(v, env)), v, env)
  {
  }

  /** Activating a server that is not running launches it, without the pause after a failure; a server
      that is running is left alone. */
  lemma Forced(s: State, v: Svid, env: Env)
    requires Known(v, env) && !IsDown(s.servers, v)
    ensures var t := Step(s, ForceEv(v, env));
            if s.servers.Inf(v).pstate == Inactive || s.servers.Inf(v).pstate == Failed then LaunchedBy(s, t, v, env)
            else t.servers == s.servers.Put(v, s.servers.Inf(v))
  {
  }

  /** An invocation of a server that the mediator does not know fails, unless the repository told it
      about the server; one whose command is not known fails too, until it is. */
  lemma Unknown(s: State, v: Svid, id: ReqId, twoWay: bool, env: Env, known: bool)
    requires v !in s.servers.svmap
    ensures Fails(s, Invoke(s, id, v, twoWay, env), id)
    ensures var t := Step(s, HasObjectEv(v, known));
            if !known || !Known(v, env) then Fails(t, Invoke(t, id, v, twoWay, env), id)
            else Starts(t, Invoke(t, id, v, twoWay, env), id, v, twoWay, env)
  {
  }

  /** The mediator asks about a known server without changing it. */
  lemma StillKnown(s: State, v: Svid, known: bool)
    requires v in s.servers.svmap
    ensures Step(s, HasObjectEv(v, known)).servers == s.servers
  {
  }

  /** The failure of one record. */
  ghost predicate FailureOf(a: Answer, r: QueueRec)
  {
    if r.InvokeRec? then a == InvokeAnswer(r.id, SysEx) else a == BindAnswer(r.id, LocateUnknown)
  }

  /** On shutdown each client that waits is told of a failure, in the order of the queue. */
  lemma ShutdownTellsAll(s: State)
    ensures var t := Step(s, ShutdownEv);
            && t.queue == [] && |t.answers| == |s.answers| + |s.queue| && s.answers <= t.answers
            && forall k :: 0 <= k < |s.queue| ==> FailureOf(t.answers[|s.answers| + k], s.queue[k])
  {
    FailuresOf(s.queue);
  }

  lemma {:induction false} FailuresOf(queue: seq<QueueRec>)
    ensures var a := FailAnswers(queue); |a| == |queue| && forall k :: 0 <= k < |queue| ==> FailureOf(a[k], queue[k])
  {
    if queue != [] {
      FailuresOf(queue[1..]);
    }
  }

  /** The reply of a server reaches the client whose invocation was sent to it. */
  lemma ReplyReachesClient(s: State, v: Svid, id: ReqId, env: Env, status: InvokeStatus)
    requires s.Valid() && IsActive(s.servers, v) && !s.forward
    ensures var t := Invoke(s, id, v, true, env);
            && Legal(t, InvokeReplyEv(s.nextMsg, status))
            && var u := Step(t, InvokeReplyEv(s.nextMsg, status));
               u.answers == s.answers + [InvokeAnswer(id, status)] && u.requests == s.requests && u.queue == s.queue
  {
    ActiveServes(s, id, v, true, env);
    assert s.nextMsg !in s.requests;
    assert s.requests[s.nextMsg := id] - {s.nextMsg} == s.requests;
  }
}
