/** What the life cycle of a server rules out, over whole runs of the mediator. */
module MediatorLifecycle {
  import opened Mediator
  import opened MediatorRuns
  import opened Wrappers

  /** The launches of one server. */
  ghost function LaunchesOf(launches: seq<Launch>, v: Svid): (r: seq<Launch>)
  {
    if launches == [] then []
    else
      var last := launches[|launches| - 1];
      LaunchesOf(launches[..|launches| - 1], v) + if last.svid == v then [last] else []
  }

  lemma LaunchesAppend(launches: seq<Launch>, l: Launch, v: Svid)
    ensures LaunchesOf(launches + [l], v) == LaunchesOf(launches, v) + if l.svid == v then [l] else []
  {
    assert (launches + [l])[..|launches|] == launches;
  }

  // ---------------------------------------------------------------------------------------
  // A server that must not be started

  /** v is held or stopped, or it crashed before its activation less than 30 seconds before the
      limit. Without a limit only held and stopped servers are blocked. */
  ghost predicate Blocked(sv: Servers, v: Svid, limit: Option<int>)
  {
    && v in sv.svmap
    && var inf := sv.svmap[v];
       || inf.pstate == Holding || inf.pstate == Stopped
       || (limit.Some? && inf.pstate == Failed && limit.value - inf.failed < 30)
  }

  /** v stays blocked and is not launched. */
  ghost predicate StaysBlocked(sv: Servers, sv': Servers, v: Svid, limit: Option<int>)
  {
    Blocked(sv, v, limit) ==> Blocked(sv', v, limit) && LaunchesOf(sv'.launches, v) == LaunchesOf(sv.launches, v)
  }

  /** Moreover its state is as it was. */
  ghost predicate StaysPut(sv: Servers, sv': Servers, v: Svid, limit: Option<int>)
  {
    && StaysBlocked(sv, sv', v, limit)
    && (Blocked(sv, v, limit) ==>
          sv'.svmap[v].pstate == sv.svmap[v].pstate && sv'.svmap[v].failed == sv.svmap[v].failed)
  }

  ghost predicate Within(now: int, limit: Option<int>) { limit.Some? ==> now <= limit.value }

  lemma CreateBlocked(sv: Servers, u: Svid, env: Env, v: Svid, limit: Option<int>)
    requires sv.Inf(u).pstate != Holding && sv.Inf(u).pstate != Stopped && Within(env.now, limit)
    ensures StaysPut(sv, CreateServer(sv, u, env).0, v, limit)
  {
    hide LaunchesOf;
    if u != v { LaunchesAppend(sv.launches, Launch(u, sv.nextPid, env.now), v); }
  }

  lemma {:induction false} StartAllBlocked(sv: Servers, names: seq<Svid>, env: Env, sofar: Readiness, v: Svid,
                                           limit: Option<int>)
    requires sofar != Refused && Within(env.now, limit)
    ensures StaysPut(sv, StartAll(sv, names, env, sofar).0, v, limit)
    decreases |names|
  {
    if names != [] {
      var u, inf := names[0], sv.Inf(names[0]);
      if inf.pstate != Active && inf.pstate != Stopped && inf.pstate != Holding {
        CreateBlocked(sv, u, env, v, limit);
        var (sv1, ok) := CreateServer(sv, u, env);
        if ok { StartAllBlocked(sv1, names[1..], env, Waiting, v, limit); }
      } else {
        StartAllBlocked(sv.Put(u, inf), names[1..], env, sofar, v, limit);
      }
    }
  }

  lemma InvokeBlocked(s: State, id: ReqId, u: Svid, twoWay: bool, env: Env, v: Svid, limit: Option<int>)
    requires Within(env.now, limit)
    ensures StaysPut(s.servers, Invoke(s, id, u, twoWay, env).servers, v, limit)
  {
    ApproachBlocked(s.servers, u, env, v, limit);
    InvokeServers(s, id, u, twoWay, env);
  }

  /** The servers after an invocation are those after approaching its server. */
  lemma InvokeServers(s: State, id: ReqId, u: Svid, twoWay: bool, env: Env)
    ensures Invoke(s, id, u, twoWay, env).servers == Approach(s.servers, u, env).0
  {
  }

  lemma ApproachBlocked(sv: Servers, u: Svid, env: Env, v: Svid, limit: Option<int>)
    requires Within(env.now, limit)
    ensures StaysPut(sv, Approach(sv, u, env).0, v, limit)
  {
    if u in sv.svmap && sv.svmap[u].pstate !in {Active, Holding, Stopped} {
      CreateBlocked(sv, u, env, v, limit);
    }
  }

  lemma BindBlocked(s: State, id: ReqId, repoid: string, tag: string, env: Env, v: Svid, limit: Option<int>)
    requires Within(env.now, limit)
    ensures StaysPut(s.servers, Bind(s, id, repoid, tag, env).0.servers, v, limit)
  {
    StartAllBlocked(s.servers, env.Serving(repoid, tag), env, AllUp, v, limit);
  }

  lemma ExecBlocked(s: State, r: QueueRec, env: Env, v: Svid, limit: Option<int>)
    requires Within(env.now, limit)
    ensures StaysPut(s.servers, Exec(s, r, env).servers, v, limit)
  {
    match r
    case InvokeRec(id, u, twoWay) => InvokeBlocked(s, id, u, twoWay, env, v, limit);
    case BindRec(id, repoid, tag) => BindBlocked(s, id, repoid, tag, env, v, limit);
  }

  lemma {:induction false} PassBlocked(s: State, seen: set<ReqId>, env: Env, v: Svid, limit: Option<int>)
    requires Within(env.now, limit)
    ensures StaysPut(s.servers, ExecPass(s, seen, env).servers, v, limit)
    decreases Unseen(s.queue, seen), |s.queue|
  {
    if s.queue != [] {
      var r, rest := s.queue[0], s.(queue := s.queue[1..]);
      if r.id in seen {
        PassBlocked(rest.(lost := rest.lost + [r]), seen, env, v, limit);
      } else {
        ExecQueue(rest, r, env);
        UnseenShrinks(rest.queue, seen, r.id);
        UnseenAppend(rest.queue, r, seen + {r.id});
        ExecBlocked(rest, r, env, v, limit);
        PassBlocked(Exec(rest, r, env), seen + {r.id}, env, v, limit);
      }
    }
  }

  /** The events by which an operator can start v again. */
  predicate Releases(e: Event, v: Svid)
  {
    (e.ForceEv? || e.ContinueEv?) && e.svid == v
  }

  /** The time an event happens at, for the events whose outcome depends on it. */
  function TimeOf(e: Event): Option<int>
  {
    match e
    case ForceEv(_, env) => Some(env.now)
    case InvokeEv(_, _, _, env) => Some(env.now)
    case BindEv(_, _, _, env) => Some(env.now)
    case TimerEv(env) => Some(env.now)
    case ExitedEv(_, now) => Some(now)
    case _ => None
  }

  ghost predicate NoLaterThan(e: Event, limit: Option<int>)
  {
    TimeOf(e).Some? ==> Within(TimeOf(e).value, limit)
  }

  lemma ForceBlocked(sv: Servers, u: Svid, env: Env, v: Svid, limit: Option<int>)
    requires u != v && Within(env.now, limit)
    ensures StaysBlocked(sv, ForceActivation(sv, u, env).0, v, limit)
  {
    var inf := sv.Inf(u);
    var sv1 := sv.Put(u, inf.(pstate := Inactive));
    if inf.pstate == Inactive { CreateBlocked(sv, u, env, v, limit); }
    if inf.pstate == Stopped || inf.pstate == Failed { CreateBlocked(sv1, u, env, v, limit); }
  }

  lemma ServerStepBlocked(sv: Servers, e: Event, v: Svid, limit: Option<int>)
    requires IsServerEvent(e) && (e.ExitedEv? ==> e.svid in sv.svmap && sv.svmap[e.svid].pstate != Failed)
    requires !Releases(e, v) && NoLaterThan(e, limit) && (limit.Some? ==> e != ActivateEv(v))
    requires e.DeactivateEv? ==> sv.Inf(e.svid).pstate != Failed
    ensures StaysBlocked(sv, ServerStep(sv, e).0, v, limit)
  {
    if e.ForceEv? { ForceBlocked(sv, e.svid, e.env, v, limit); }
  }

  lemma StepBlocked(s: State, e: Event, v: Svid, limit: Option<int>)
    requires Legal(s, e) && !Releases(e, v) && NoLaterThan(e, limit)
    requires limit.Some? ==> e != ActivateEv(v)
    ensures StaysBlocked(s.servers, Step(s, e).servers, v, limit)
  {
    match e
    case InvokeEv(id, u, twoWay, env) => InvokeBlocked(s, id, u, twoWay, env, v, limit);
    case BindEv(id, repoid, tag, env) => BindBlocked(s, id, repoid, tag, env, v, limit);
    case TimerEv(env) => PassBlocked(s.(scheduled := false), {}, env, v, limit);
    case ShutdownEv =>
    case CancelEv(_) =>
    case InvokeReplyEv(_, _) =>
    case BindReplyEv(_, _) =>
    case _ => ServerStepBlocked(s.servers, e, v, limit);
  }

  lemma {:induction false} RunBlocked(s: State, es: seq<Event>, v: Svid, limit: Option<int>)
    requires LegalRun(s, es)
    requires forall e :: e in es ==> !Releases(e, v) && NoLaterThan(e, limit) && (limit.Some? ==> e != ActivateEv(v))
    ensures StaysBlocked(s.servers, Run(s, es).servers, v, limit)
    decreases |es|
  {
    if es != [] {
      hide StaysBlocked;
      hide Step;
      assert es[0] in es && forall e :: e in es[1..] ==> e in es;
      StepBlocked(s, es[0], v, limit);
      assert LegalRun(Step(s, es[0]), es[1..]);
      RunBlocked(Step(s, es[0]), es[1..], v, limit);
    }
  }

  /** A held or stopped server stays so and is never launched, whatever invocations, binds,
      announcements and exits happen, until an operator activates it or lets it continue. */
  lemma HeldServerStaysDown(s: State, es: seq<Event>, v: Svid)
    requires v in s.servers.svmap && s.servers.svmap[v].pstate in {Holding, Stopped}
    requires LegalRun(s, es) && forall e :: e in es ==> !Releases(e, v)
    ensures var t := Run(s, es).servers;
            && v in t.svmap && t.svmap[v].pstate in {Holding, Stopped}
            && LaunchesOf(t.launches, v) == LaunchesOf(s.servers.launches, v)
  {
    RunBlocked(s, es, v, None);
  }

  // ---------------------------------------------------------------------------------------
  // The pause after a crash

  /** A step adds launches at its own time only. */
  ghost predicate LaunchesAt(sv: Servers, sv': Servers, from: int)
  {
    && |sv.launches| <= |sv'.launches|
    && sv'.launches[..|sv.launches|] == sv.launches
    && forall i :: |sv.launches| <= i < |sv'.launches| ==> sv'.launches[i].time >= from
  }

  lemma {:induction false} StartAllAt(sv: Servers, names: seq<Svid>, env: Env, sofar: Readiness)
    requires sofar != Refused
    ensures LaunchesAt(sv, StartAll(sv, names, env, sofar).0, env.now)
    decreases |names|
  {
    if names != [] {
      var u, inf := names[0], sv.Inf(names[0]);
      if inf.pstate != Active && inf.pstate != Stopped && inf.pstate != Holding {
        var (sv1, ok) := CreateServer(sv, u, env);
        if ok {
          StartAllAt(sv1, names[1..], env, Waiting);
          LaunchesChain(sv, sv1, StartAll(sv1, names[1..], env, Waiting).0, env.now);
        }
      } else {
        StartAllAt(sv.Put(u, inf), names[1..], env, sofar);
      }
    }
  }

  lemma LaunchesChain(sv: Servers, sv1: Servers, sv2: Servers, from: int)
    requires LaunchesAt(sv, sv1, from) && LaunchesAt(sv1, sv2, from)
    ensures LaunchesAt(sv, sv2, from)
  {
    var n, m := |sv.launches|, |sv1.launches|;
    assert sv2.launches[..n] == sv2.launches[..m][..n];
    forall i | n <= i < m ensures sv2.launches[i].time >= from {
      assert sv2.launches[i] == sv2.launches[..m][i];
    }
  }

  lemma ExecAt(s: State, r: QueueRec, env: Env)
    ensures LaunchesAt(s.servers, Exec(s, r, env).servers, env.now)
  {
    match r
    case InvokeRec(id, u, twoWay) => InvokeServers(s, id, u, twoWay, env);
    case BindRec(id, repoid, tag) => StartAllAt(s.servers, env.Serving(repoid, tag), env, AllUp);
  }

  lemma {:induction false} PassAt(s: State, seen: set<ReqId>, env: Env)
    ensures LaunchesAt(s.servers, ExecPass(s, seen, env).servers, env.now)
    decreases Unseen(s.queue, seen), |s.queue|
  {
    if s.queue != [] {
      var r, rest := s.queue[0], s.(queue := s.queue[1..]);
      if r.id in seen {
        PassAt(rest.(lost := rest.lost + [r]), seen, env);
      } else {
        ExecQueue(rest, r, env);
        UnseenShrinks(rest.queue, seen, r.id);
        UnseenAppend(rest.queue, r, seen + {r.id});
        ExecAt(rest, r, env);
        PassAt(Exec(rest, r, env), seen + {r.id}, env);
        LaunchesChain(s.servers, Exec(rest, r, env).servers, ExecPass(s, seen, env).servers, env.now);
      }
    }
  }

  lemma ServerStepAt(sv: Servers, e: Event, from: int)
    requires IsServerEvent(e) && (e.ExitedEv? ==> e.svid in sv.svmap)
    requires TimeOf(e).Some? ==> TimeOf(e).value >= from
    ensures LaunchesAt(sv, ServerStep(sv, e).0, from)
  {
  }

  lemma QueueStepAt(s: State, env: Env, from: int)
    requires env.now >= from
    ensures LaunchesAt(s.servers, ExecNow(s, env).servers, from)
  {
    PassAt(s.(scheduled := false), {}, env);
  }

  lemma StepAt(s: State, e: Event, from: int)
    requires Legal(s, e) && (TimeOf(e).Some? ==> TimeOf(e).value >= from)
    ensures LaunchesAt(s.servers, Step(s, e).servers, from)
  {
    match e
    case InvokeEv(id, u, twoWay, env) => ExecAt(s, InvokeRec(id, u, twoWay), env);
    case BindEv(id, repoid, tag, env) => StartAllAt(s.servers, env.Serving(repoid, tag), env, AllUp);
    case TimerEv(env) => QueueStepAt(s, env, from);
    case ShutdownEv =>
    case CancelEv(_) =>
    case InvokeReplyEv(_, _) =>
    case BindReplyEv(_, _) =>
    case _ => ServerStepAt(s.servers, e, from);
  }

  /** The clock does not run backwards. */
  ghost predicate Monotone(es: seq<Event>, from: int)
    decreases |es|
  {
    es == [] ||
    (match TimeOf(es[0])
     case Some(now) => now >= from && Monotone(es[1..], now)
     case None => Monotone(es[1..], from))
  }

  lemma {:induction false} RunAt(s: State, es: seq<Event>, from: int, bound: int)
    requires LegalRun(s, es) && Monotone(es, from) && bound <= from
    ensures LaunchesAt(s.servers, Run(s, es).servers, bound)
    decreases |es|
  {
    if es != [] {
      StepAt(s, es[0], bound);
      RunAt(Step(s, es[0]), es[1..], if TimeOf(es[0]).Some? then TimeOf(es[0]).value else from, bound);
      LaunchesChain(s.servers, Step(s, es[0]).servers, Run(s, es).servers, bound);
    }
  }

  /** Launches of v in a part of the list. */
  ghost predicate NotBefore(launches: seq<Launch>, n: nat, v: Svid, earliest: int)
  {
    n <= |launches| && forall i :: n <= i < |launches| && launches[i].svid == v ==> launches[i].time >= earliest
  }

  /** If the launches of v in a list and in its extension are the same, the extension adds none. */
  lemma {:induction false} SameLaunches(launches: seq<Launch>, n: nat, v: Svid)
    requires n <= |launches| && LaunchesOf(launches, v) == LaunchesOf(launches[..n], v)
    ensures forall i :: n <= i < |launches| ==> launches[i].svid != v
  {
    LaunchesGrow(launches, n, v);
    if n < |launches| {
      var front := launches[..|launches| - 1];
      assert front[..n] == launches[..n];
      LaunchesGrow(front, n, v);
      SameLaunches(front, n, v);
      assert forall i :: n <= i < |front| ==> launches[i] == front[i];
    }
  }

  lemma {:induction false} LaunchesGrow(launches: seq<Launch>, n: nat, v: Svid)
    requires n <= |launches|
    ensures |LaunchesOf(launches[..n], v)| <= |LaunchesOf(launches, v)|
  {
    if n < |launches| {
      var front := launches[..|launches| - 1];
      assert front[..n] == launches[..n];
      LaunchesGrow(front, n, v);
    } else {
      assert launches[..n] == launches;
    }
  }

  lemma {:induction false} CoolsDown(s: State, es: seq<Event>, v: Svid, t: int, from: int, n: nat)
    requires LegalRun(s, es) && Monotone(es, from)
    requires forall e :: e in es ==> !Releases(e, v) && e != ActivateEv(v)
    requires Blocked(s.servers, v, Some(t + 29)) && NotBefore(s.servers.launches, n, v, t + 30)
    ensures NotBefore(Run(s, es).servers.launches, n, v, t + 30)
    decreases |es|
  {
    if es != [] {
      var e := es[0];
      var s1 := Step(s, e);
      assert e in es;
      var next := if TimeOf(e).Some? then TimeOf(e).value else from;
      if TimeOf(e).Some? && next >= t + 30 {
        StepAt(s, e, t + 30);
        RunAt(s1, es[1..], next, t + 30);
        LaunchesChain(s.servers, s1.servers, Run(s, es).servers, t + 30);
        assert Run(s, es).servers.launches[..|s.servers.launches|] == s.servers.launches;
        forall i | n <= i < |s.servers.launches| && Run(s, es).servers.launches[i].svid == v
          ensures Run(s, es).servers.launches[i].time >= t + 30
        {
          assert Run(s, es).servers.launches[..|s.servers.launches|][i] == s.servers.launches[i];
        }
      } else {
        StepBlocked(s, e, v, Some(t + 29));
        StepAt(s, e, if TimeOf(e).Some? then next else 0);
        SameLaunches(s1.servers.launches, |s.servers.launches|, v);
        assert forall i :: 0 <= i < |s.servers.launches| ==>
          s1.servers.launches[i] == s1.servers.launches[..|s.servers.launches|][i];
        CoolsDown(s1, es[1..], v, t, next, n);
      }
    }
  }

  /** A server that crashes before its activation at time t is not launched again before t + 30,
      whatever requests arrive, unless an operator intervenes or the server announces itself. */
  lemma NoRestartWithinThirtySeconds(s: State, v: Svid, t: int, es: seq<Event>)
    requires Legal(s, ExitedEv(v, t)) && s.servers.svmap[v].pstate == Started
    requires LegalRun(Step(s, ExitedEv(v, t)), es) && Monotone(es, t)
    requires forall e :: e in es ==> !Releases(e, v) && e != ActivateEv(v)
    ensures NotBefore(Run(Step(s, ExitedEv(v, t)), es).servers.launches, |s.servers.launches|, v, t + 30)
  {
    CoolsDown(Step(s, ExitedEv(v, t)), es, v, t, t, |s.servers.launches|);
  }

  /** The events by which an operator or the server itself ends the pause. */
  predicate Intervenes(e: Event, v: Svid)
  {
    Releases(e, v) || ((e.ActivateEv? || e.HoldEv? || e.StopEv?) && e.svid == v)
  }

  ghost predicate FailedAt(sv: Servers, v: Svid, t: int)
  {
    v in sv.svmap && sv.svmap[v].pstate == Failed && sv.svmap[v].failed == t
  }

  lemma FailedStep(s: State, e: Event, v: Svid, t: int)
    requires Legal(s, e) && FailedAt(s.servers, v, t) && !Intervenes(e, v) && NoLaterThan(e, Some(t + 29))
    ensures FailedAt(Step(s, e).servers, v, t)
  {
    hide Invoke, Bind, ExecNow, LaunchesOf, ServerStep;
    match e
    case InvokeEv(id, u, twoWay, env) => InvokeBlocked(s, id, u, twoWay, env, v, Some(t + 29));
    case BindEv(id, repoid, tag, env) => BindBlocked(s, id, repoid, tag, env, v, Some(t + 29));
    case TimerEv(env) => ExecNowBlocked(s, env, v, Some(t + 29));
    case ShutdownEv =>
    case CancelEv(_) =>
    case InvokeReplyEv(_, _) =>
    case BindReplyEv(_, _) =>
    case _ => FailedServerStep(s, e, v, t);
  }

  lemma FailedServerStep(s: State, e: Event, v: Svid, t: int)
    requires Legal(s, e) && IsServerEvent(e) && FailedAt(s.servers, v, t) && !Intervenes(e, v)
    ensures FailedAt(ServerStep(s.servers, e).0, v, t)
  {
    hide ForceActivation;
    if e.ForceEv? { ForcePut(s.servers, e.svid, e.env, v); }
  }

  lemma ExecNowBlocked(s: State, env: Env, v: Svid, limit: Option<int>)
    requires Within(env.now, limit)
    ensures StaysPut(s.servers, ExecNow(s, env).servers, v, limit)
  {
    PassBlocked(s.(scheduled := false), {}, env, v, limit);
  }

  lemma ForcePut(sv: Servers, u: Svid, env: Env, v: Svid)
    requires u != v && v in sv.svmap
    ensures var sv1 := ForceActivation(sv, u, env).0; v in sv1.svmap && sv1.svmap[v] == sv.svmap[v]
  {
  }

  lemma {:induction false} RunFailed(s: State, es: seq<Event>, v: Svid, t: int)
    requires LegalRun(s, es) && FailedAt(s.servers, v, t)
    requires forall e :: e in es ==> !Intervenes(e, v) && NoLaterThan(e, Some(t + 29))
    ensures FailedAt(Run(s, es).servers, v, t)
    decreases |es|
  {
    hide FailedAt, Step, Legal;
    if es != [] {
      assert es[0] in es && forall e :: e in es[1..] ==> e in es;
      FailedStep(s, es[0], v, t);
      RunFailed(Step(s, es[0]), es[1..], v, t);
    }
  }

  /** The pause is not a ban: whatever arrives in the 30 seconds after the crash, as long as nobody
      intervenes, an invocation launches the server exactly from t + 30 on, if its command is known. */
  lemma RestartsAfterThirtySeconds(s: State, v: Svid, t: int, es: seq<Event>, id: ReqId, env: Env)
    requires Legal(s, ExitedEv(v, t)) && s.servers.svmap[v].pstate == Started
    requires LegalRun(Step(s, ExitedEv(v, t)), es)
    requires forall e :: e in es ==> !Intervenes(e, v) && NoLaterThan(e, Some(t + 29))
    requires v in env.commands && env.commands[v] != ""
    ensures var sv := Run(Step(s, ExitedEv(v, t)), es).servers;
            Invoke(Run(Step(s, ExitedEv(v, t)), es), id, v, true, env).servers.launches
            == sv.launches + if env.now >= t + 30 then [Launch(v, sv.nextPid, env.now)] else []
  {
    var u := Run(Step(s, ExitedEv(v, t)), es);
    RunFailed(Step(s, ExitedEv(v, t)), es, v, t);
    InvokeServers(u, id, v, true, env);
  }

  // ---------------------------------------------------------------------------------------
  // The address of a server

  /** An entry is never removed, and keeps its address. */
  ghost predicate KeepsAddress(sv: Servers, sv': Servers, v: Svid)
  {
    v in sv.svmap ==> v in sv'.svmap && sv'.svmap[v].ior == sv.svmap[v].ior
  }

  lemma {:induction false} StartAllAddress(sv: Servers, names: seq<Svid>, env: Env, sofar: Readiness, v: Svid)
    requires sofar != Refused
    ensures KeepsAddress(sv, StartAll(sv, names, env, sofar).0, v)
    decreases |names|
  {
    if names != [] {
      var u, inf := names[0], sv.Inf(names[0]);
      if inf.pstate != Active && inf.pstate != Stopped && inf.pstate != Holding {
        var (sv1, ok) := CreateServer(sv, u, env);
        if ok { StartAllAddress(sv1, names[1..], env, Waiting, v); }
      } else {
        StartAllAddress(sv.Put(u, inf), names[1..], env, sofar, v);
      }
    }
  }

  lemma ExecAddress(s: State, r: QueueRec, env: Env, v: Svid)
    ensures KeepsAddress(s.servers, Exec(s, r, env).servers, v)
  {
    match r
    case InvokeRec(id, u, twoWay) => InvokeServers(s, id, u, twoWay, env);
    case BindRec(id, repoid, tag) => StartAllAddress(s.servers, env.Serving(repoid, tag), env, AllUp, v);
  }

  lemma {:induction false} PassAddress(s: State, seen: set<ReqId>, env: Env, v: Svid)
    ensures KeepsAddress(s.servers, ExecPass(s, seen, env).servers, v)
    decreases Unseen(s.queue, seen), |s.queue|
  {
    hide Exec;
    if s.queue != [] {
      var r, rest := s.queue[0], s.(queue := s.queue[1..]);
      if r.id in seen {
        PassAddress(rest.(lost := rest.lost + [r]), seen, env, v);
      } else {
        ExecQueue(rest, r, env);
        UnseenShrinks(rest.queue, seen, r.id);
        UnseenAppend(rest.queue, r, seen + {r.id});
        ExecAddress(rest, r, env, v);
        PassAddress(Exec(rest, r, env), seen + {r.id}, env, v);
      }
    }
  }

  lemma StepAddress(s: State, e: Event, v: Svid)
    requires Legal(s, e) && !(e.CreateImplEv? && e.svid == v)
    ensures KeepsAddress(s.servers, Step(s, e).servers, v)
  {
    hide Invoke, Bind, Exec;
    match e
    case InvokeEv(id, u, twoWay, env) => InvokeServers(s, id, u, twoWay, env);
    case BindEv(id, repoid, tag, env) => BindAddress(s, id, repoid, tag, env, v);
    case TimerEv(env) => PassAddress(s.(scheduled := false), {}, env, v);
    case ShutdownEv =>
    case CancelEv(_) =>
    case InvokeReplyEv(_, _) =>
    case BindReplyEv(_, _) =>
    case _ => ServerStepAddress(s.servers, e, v);
  }

  lemma BindAddress(s: State, id: ReqId, repoid: string, tag: string, env: Env, v: Svid)
    ensures KeepsAddress(s.servers, Bind(s, id, repoid, tag, env).0.servers, v)
  {
    StartAllAddress(s.servers, env.Serving(repoid, tag), env, AllUp, v);
  }

  lemma ServerStepAddress(sv: Servers, e: Event, v: Svid)
    requires IsServerEvent(e) && (e.ExitedEv? ==> e.svid in sv.svmap) && !(e.CreateImplEv? && e.svid == v)
    ensures KeepsAddress(sv, ServerStep(sv, e).0, v)
  {
  }

  lemma {:induction false} RunAddress(s: State, es: seq<Event>, v: Svid)
    requires LegalRun(s, es) && forall e :: e in es ==> !(e.CreateImplEv? && e.svid == v)
    ensures KeepsAddress(s.servers, Run(s, es).servers, v)
    decreases |es|
  {
    hide Step, Legal;
    if es != [] {
      assert es[0] in es && forall e :: e in es[1..] ==> e in es;
      StepAddress(s, es[0], v);
      RunAddress(Step(s, es[0]), es[1..], v);
    }
  }

  /** Whatever happens since a server announced its address, crashes and restarts included, clients
      are forwarded to that address whenever the server is Active, until it announces another. */
  lemma ForwardsToAnnounced(s: State, v: Svid, ior: string, es: seq<Event>, id: ReqId, env: Env)
    requires LegalRun(Step(s, CreateImplEv(v, ior)), es)
    requires forall e :: e in es ==> !(e.CreateImplEv? && e.svid == v)
    ensures var t := Run(Step(s, CreateImplEv(v, ior)), es);
            && v in t.servers.svmap
            && (t.forward && t.servers.svmap[v].pstate == Active ==>
                  Invoke(t, id, v, true, env) == t.Told(InvokeAnswer(id, Forward(ior))))
  {
    RunAddress(Step(s, CreateImplEv(v, ior)), es, v);
  }
}
