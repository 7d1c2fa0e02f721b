/** What the request queue of the mediator loses: which records a pass over the queue puts back,
    and therefore meets again and drops. */
module MediatorQueue {
  import opened Mediator
  import opened MediatorRuns
  import opened Wrappers

  // ---------------------------------------------------------------------------------------
  // What a request meets at a server

  /** Down: held or stopped; Starts: create_server would launch it now. */
  datatype Status = Up | Down | Starting | Starts | Refuses

  /** A name without an entry counts as inactive, as it does for create_server. */
  function StatusOf(sv: Servers, v: Svid, env: Env): Status
  {
    match sv.Inf(v).pstate
    case Active => Up
    case Holding => Down
    case Stopped => Down
    case Started => Starting
    case _ => if Startable(sv, v, env) then Starts else Refuses
  }

  /** create_server succeeds for a server that is up, is starting, or can be launched, and changes
      only the last of these. */
  lemma CreateStatus(sv: Servers, v: Svid, env: Env, u: Svid)
    requires StatusOf(sv, v, env) != Down
    ensures var (sv1, ok) := CreateServer(sv, v, env);
            && (ok <==> StatusOf(sv, v, env) == Up || StatusOf(sv, v, env) == Starting
                        || (StatusOf(sv, v, env) == Starts && env.forkOk))
            && StatusOf(sv1, u, env) == (if u == v && StatusOf(sv, v, env) == Starts then Starting
                else StatusOf(sv, u, env))
            && (u in sv1.svmap <==> u in sv.svmap || u == v)
  {
  }

  /** The servers of a bind, one by one. */
  function OneOf(sv: Servers, v: Svid, env: Env, sofar: Readiness): (Servers, Readiness)
    requires sofar != Refused
  {
    if StatusOf(sv, v, env) == Up || StatusOf(sv, v, env) == Down then (sv.Put(v, sv.Inf(v)), sofar)
    else
      var (sv1, ok) := CreateServer(sv, v, env);
      (sv1, if ok then Waiting else Refused)
  }

  lemma StartAllOne(sv: Servers, names: seq<Svid>, env: Env, sofar: Readiness)
    requires sofar != Refused && names != []
    ensures var (sv1, ready) := OneOf(sv, names[0], env, sofar);
            StartAll(sv, names, env, sofar) == if ready == Refused
                then (sv1, Refused) else StartAll(sv1, names[1..], env, ready)
  {
  }

  // ---------------------------------------------------------------------------------------
  // The servers that executing records has started

  /** now is sv after the servers of w have been started, and others have been looked at. */
  ghost predicate Launched(sv: Servers, w: set<Svid>, now: Servers, env: Env)
  {
    && (forall v :: StatusOf(now, v, env) == if v in w then Starting else StatusOf(sv, v, env))
    && (forall v :: v in sv.svmap || v in w ==> v in now.svmap)
    && (forall v :: v in now.svmap && v !in sv.svmap ==> v in w || StatusOf(sv, v, env) == Refuses)
  }

  /** With the servers of w started, this one is waited for; or it cannot be started. */
  predicate Waits(sv: Servers, w: set<Svid>, v: Svid, env: Env)
  {
    v in w || StatusOf(sv, v, env) == Starting || (StatusOf(sv, v, env) == Starts && env.forkOk)
  }

  predicate Fails(sv: Servers, w: set<Svid>, v: Svid, env: Env)
  {
    v !in w && (StatusOf(sv, v, env) == Refuses || (StatusOf(sv, v, env) == Starts && !env.forkOk))
  }

  /** A launch counts even if the process could not be created. */
  function With(sv: Servers, w: set<Svid>, v: Svid, env: Env): set<Svid>
  {
    if StatusOf(sv, v, env) == Starts then w + {v} else w
  }

  /** The servers started by going through the names until one fails. */
  function Through(sv: Servers, w: set<Svid>, names: seq<Svid>, env: Env): (w': set<Svid>)
    decreases |names|
  {
    if names == [] then w
    else if Fails(sv, w, names[0], env) then With(sv, w, names[0], env)
    else Through(sv, With(sv, w, names[0], env), names[1..], env)
  }

  lemma OneLaunched(sv: Servers, w: set<Svid>, now: Servers, v: Svid, env: Env, sofar: Readiness)
    requires Launched(sv, w, now, env) && sofar != Refused
    ensures var (sv1, ready) := OneOf(now, v, env, sofar);
            && Launched(sv, With(sv, w, v, env), sv1, env)
            && (ready == Refused <==> Fails(sv, w, v, env))
            && (ready == Waiting <==> Waits(sv, w, v, env) || (!Fails(sv, w, v, env) && sofar == Waiting))
  {
    var sv1 := OneOf(now, v, env, sofar).0;
    assert StatusOf(now, v, env) == if v in w then Starting else StatusOf(sv, v, env);
    hide CreateServer, Startable;
    forall u ensures StatusOf(sv1, u, env) == if u in With(sv, w, v, env) then Starting else StatusOf(sv, u, env) {
      assert StatusOf(now, u, env) == if u in w then Starting else StatusOf(sv, u, env);
      LookedAt(now, v, env, sofar, u);
    }
    forall u ensures u in sv1.svmap <==> u in now.svmap || u == v { LookedAt(now, v, env, sofar, u); }
  }

  lemma LookedAt(now: Servers, v: Svid, env: Env, sofar: Readiness, u: Svid)
    requires sofar != Refused
    ensures var (sv1, ready) := OneOf(now, v, env, sofar);
            && StatusOf(sv1, u, env) == (if u == v && StatusOf(now, v, env) == Starts then Starting
                else StatusOf(now, u, env))
            && (u in sv1.svmap <==> u in now.svmap || u == v)
            && ready == match StatusOf(now, v, env)
                 case Up => sofar
                 case Down => sofar
                 case Starting => Waiting
                 case Starts => if env.forkOk then Waiting else Refused
                 case Refuses => Refused
  {
    if StatusOf(now, v, env) != Down { CreateStatus(now, v, env, u); }
  }

  ghost predicate AnyFails(sv: Servers, w: set<Svid>, names: seq<Svid>, env: Env)
  {
    exists v :: v in names && Fails(sv, w, v, env)
  }

  ghost predicate AnyWaits(sv: Servers, w: set<Svid>, names: seq<Svid>, env: Env)
  {
    exists v :: v in names && Waits(sv, w, v, env)
  }

  lemma InRest(names: seq<Svid>, v: Svid)
    requires names != []
    ensures v in names <==> v == names[0] || v in names[1..]
  {
  }

  /** Launching one server leaves what holds for the others. */
  lemma AnyOfRest(sv: Servers, w: set<Svid>, names: seq<Svid>, env: Env)
    requires names != [] && !Fails(sv, w, names[0], env)
    ensures var w1 := With(sv, w, names[0], env);
            && (AnyFails(sv, w, names, env) <==> AnyFails(sv, w1, names[1..], env))
            && (AnyWaits(sv, w, names, env) <==> Waits(sv, w, names[0], env) || AnyWaits(sv, w1, names[1..], env))
  {
    var w1 := With(sv, w, names[0], env);
    forall v ensures Fails(sv, w1, v, env) <==> Fails(sv, w, v, env) {}
    forall v ensures Waits(sv, w1, v, env) <==> Waits(sv, w, v, env) {}
    forall v ensures v in names <==> v == names[0] || v in names[1..] { InRest(names, v); }
    hide Fails, Waits, With;
    if AnyFails(sv, w, names, env) {
      var v :| v in names && Fails(sv, w, v, env);
      assert Fails(sv, w1, v, env);
    }
    if AnyWaits(sv, w, names, env) {
      var v :| v in names && Waits(sv, w, v, env);
      assert Waits(sv, w1, v, env);
    }
  }

  lemma {:induction false} StartAllLaunched(sv: Servers, w: set<Svid>, now: Servers, names: seq<Svid>, env: Env,
                                            sofar: Readiness)
    requires Launched(sv, w, now, env) && sofar != Refused
    ensures var (sv1, ready) := StartAll(now, names, env, sofar);
            && Launched(sv, Through(sv, w, names, env), sv1, env)
            && ready == if AnyFails(sv, w, names, env) then Refused
                        else if sofar == Waiting || AnyWaits(sv, w, names, env) then Waiting else AllUp
    decreases |names|
  {
    hide Launched, OneOf, With, Waits;
    if names != [] {
      OneLaunched(sv, w, now, names[0], env, sofar);
      StartAllOne(now, names, env, sofar);
      var (sv1, ready) := OneOf(now, names[0], env, sofar);
      if ready != Refused {
        AnyOfRest(sv, w, names, env);
        StartAllLaunched(sv, With(sv, w, names[0], env), sv1, names[1..], env, ready);
      }
    }
  }

  lemma NoneLaunched(sv: Servers, env: Env)
    ensures Launched(sv, {}, sv, env)
  {
  }

  /** A server that need not be started: it is Active, held or stopped. */
  predicate Settles(sv: Servers, v: Svid)
  {
    sv.Inf(v).pstate == Active || sv.Inf(v).pstate == Holding || sv.Inf(v).pstate == Stopped
  }

  lemma {:induction false} SettledIsKept(sv: Servers, names: seq<Svid>, env: Env)
    requires forall v :: v in names ==> Settles(sv, v)
    ensures StartAll(sv, names, env, AllUp) == (sv, AllUp)
    decreases |names|
  {
    if names != [] {
      assert names[0] in names && Settles(sv, names[0]);
      assert sv.Put(names[0], sv.Inf(names[0])) == sv;
      SettledIsKept(sv, names[1..], env);
    }
  }

  /** All the servers of a bind are up exactly if none of them would be started or waited for. */
  lemma AllUpIff(sv: Servers, names: seq<Svid>, env: Env)
    ensures StartAll(sv, names, env, AllUp).1 == AllUp
       <==> forall v :: v in names ==> Settles(sv, v)
  {
    NoneLaunched(sv, env);
    StartAllLaunched(sv, {}, sv, names, env, AllUp);
    forall v ensures (Fails(sv, {}, v, env) || Waits(sv, {}, v, env)) <==> !Settles(sv, v) {}
  }

  // ---------------------------------------------------------------------------------------
  // What a pass over the queue drops

  /** The record goes back to the queue when it is executed after the servers of w were started:
      an invocation whose server is held, stopped or not up yet; a bind none of whose servers
      fails and at least one of which is not up yet. */
  ghost predicate GoesBack(sv: Servers, w: set<Svid>, r: QueueRec, env: Env)
  {
    match r
    case InvokeRec(_, v, _) => v in w || (v in sv.svmap && (StatusOf(sv, v, env) == Down || Waits(sv, w, v, env)))
    case BindRec(_, repoid, tag) =>
      var names := env.Serving(repoid, tag);
      !AnyFails(sv, w, names, env) && AnyWaits(sv, w, names, env)
  }

  function LaunchedBy(sv: Servers, w: set<Svid>, r: QueueRec, env: Env): set<Svid>
  {
    match r
    case InvokeRec(_, v, _) => if v in sv.svmap then With(sv, w, v, env) else w
    case BindRec(_, repoid, tag) => Through(sv, w, env.Serving(repoid, tag), env)
  }

  lemma Approached(now: Servers, v: Svid, env: Env, u: Svid)
    ensures var (sv1, reception) := Approach(now, v, env);
            && StatusOf(sv1, u, env) ==
                 (if u == v && v in now.svmap && StatusOf(now, v, env) == Starts then Starting
                     else StatusOf(now, u, env))
            && (u in sv1.svmap <==> u in now.svmap)
            && (reception.NotReady? <==>
                (v in now.svmap
                 && (StatusOf(now, v, env) == Down || StatusOf(now, v, env) == Starting
                     || (StatusOf(now, v, env) == Starts && env.forkOk))))
  {
    if v in now.svmap && StatusOf(now, v, env) != Down { CreateStatus(now, v, env, u); }
  }

  lemma InvocationLaunches(sv: Servers, w: set<Svid>, now: Servers, r: QueueRec, env: Env)
    requires r.InvokeRec? && Launched(sv, w, now, env)
    ensures var (sv1, reception) := Approach(now, r.svid, env);
            && Launched(sv, LaunchedBy(sv, w, r, env), sv1, env)
            && (reception.NotReady? <==> GoesBack(sv, w, r, env))
  {
    hide StatusOf, Approach;
    var v, sv1 := r.svid, Approach(now, r.svid, env).0;
    assert StatusOf(now, v, env) == if v in w then Starting else StatusOf(sv, v, env);
    Approached(now, v, env, v);
    forall u
      ensures StatusOf(sv1, u, env) == if u in LaunchedBy(sv, w, r, env) then Starting else StatusOf(sv, u, env)
      ensures u in sv1.svmap <==> u in now.svmap
    {
      Approached(now, v, env, u);
    }
  }

  lemma InvokeEffect(sv: Servers, w: set<Svid>, s: State, r: QueueRec, env: Env)
    requires r.InvokeRec? && Launched(sv, w, s.servers, env)
    ensures var t := Exec(s, r, env);
            && t.lost == s.lost
            && t.queue == (if GoesBack(sv, w, r, env) then s.queue + [r] else s.queue)
            && Launched(sv, LaunchedBy(sv, w, r, env), t.servers, env)
  {
    hide Launched, GoesBack, LaunchedBy, Approach;
    InvocationLaunches(sv, w, s.servers, r, env);
  }

  lemma BindEffect(sv: Servers, w: set<Svid>, s: State, r: QueueRec, env: Env)
    requires r.BindRec? && Launched(sv, w, s.servers, env)
    ensures var t := Exec(s, r, env);
            && t.lost == s.lost
            && t.queue == (if GoesBack(sv, w, r, env) then s.queue + [r] else s.queue)
            && Launched(sv, LaunchedBy(sv, w, r, env), t.servers, env)
  {
    hide Launched;
    StartAllLaunched(sv, w, s.servers, env.Serving(r.repoid, r.tag), env, AllUp);
  }

  lemma ExecEffect(sv: Servers, w: set<Svid>, s: State, r: QueueRec, env: Env)
    requires Launched(sv, w, s.servers, env)
    ensures var t := Exec(s, r, env);
            && t.lost == s.lost
            && t.queue == (if GoesBack(sv, w, r, env) then s.queue + [r] else s.queue)
            && Launched(sv, LaunchedBy(sv, w, r, env), t.servers, env)
  {
    if r.InvokeRec? { InvokeEffect(sv, w, s, r, env); } else { BindEffect(sv, w, s, r, env); }
  }

  /** The records of a queue that go back when it is executed in order. */
  ghost function PutBack(sv: Servers, w: set<Svid>, queue: seq<QueueRec>, env: Env): (back: seq<QueueRec>)
    decreases |queue|
  {
    if queue == [] then []
    else
      (if GoesBack(sv, w, queue[0], env) then [queue[0]] else [])
      + PutBack(sv, LaunchedBy(sv, w, queue[0], env), queue[1..], env)
  }

  ghost predicate DistinctIds(queue: seq<QueueRec>, seen: set<ReqId>)
  {
    && (forall i :: 0 <= i < |queue| ==> queue[i].id !in seen)
    && (forall i, j :: 0 <= i < j < |queue| ==> queue[i].id != queue[j].id)
  }

  /** Records that were seen are dropped, all of them. */
  lemma {:induction false} SeenAreDropped(s: State, seen: set<ReqId>, env: Env)
    requires forall i :: 0 <= i < |s.queue| ==> s.queue[i].id in seen
    ensures var t := ExecPass(s, seen, env); t.queue == [] && t.lost == s.lost + s.queue
    decreases |s.queue|
  {
    if s.queue != [] {
      SeenAreDropped(s.(queue := s.queue[1..], lost := s.lost + [s.queue[0]]), seen, env);
    }
  }

  lemma Reassociate(a: seq<QueueRec>, b: seq<QueueRec>, c: seq<QueueRec>, d: seq<QueueRec>)
    ensures a + (b + c) + d == a + b + (c + d)
  {
  }

  lemma FirstOfPass(sv: Servers, w: set<Svid>, s: State, todo: seq<QueueRec>, back: seq<QueueRec>, more: seq<QueueRec>,
                    seen: set<ReqId>, env: Env)
    requires todo != [] && s.queue == todo + back && todo[0].id !in seen && Launched(sv, w, s.servers, env)
    requires more == if GoesBack(sv, w, todo[0], env) then [todo[0]] else []
    ensures var t := Exec(s.(queue := s.queue[1..]), todo[0], env);
            && t.queue == todo[1..] + (back + more) && t.lost == s.lost
            && Launched(sv, LaunchedBy(sv, w, todo[0], env), t.servers, env)
            && ExecPass(s, seen, env) == ExecPass(t, seen + {todo[0].id}, env)
  {
    hide Launched, GoesBack, LaunchedBy, Exec;
    var r, rest := todo[0], s.(queue := s.queue[1..]);
    assert s.queue[0] == r && s.queue[1..] == todo[1..] + back;
    ExecEffect(sv, w, rest, r, env);
    assert todo[1..] + back + more == todo[1..] + (back + more);
    assert todo[1..] + back == todo[1..] + (back + []);
  }

  /** A pass drops exactly the records that its own executions put back. */
  lemma {:induction false} PassDropsPutBack(sv: Servers, w: set<Svid>, s: State, todo: seq<QueueRec>,
                                            back: seq<QueueRec>,
                                            seen: set<ReqId>, env: Env)
    requires s.queue == todo + back && DistinctIds(todo, seen) && Launched(sv, w, s.servers, env)
    requires forall i :: 0 <= i < |back| ==> back[i].id in seen
    ensures var t := ExecPass(s, seen, env);
            t.queue == [] && t.lost == s.lost + back + PutBack(sv, w, todo, env)
    decreases |todo|
  {
    hide Launched, GoesBack, LaunchedBy, Exec;
    if todo == [] {
      assert s.queue == back;
      SeenAreDropped(s, seen, env);
    } else {
      var r, rest := todo[0], s.(queue := s.queue[1..]);
      var more := if GoesBack(sv, w, r, env) then [r] else [];
      var t, w1 := Exec(rest, r, env), LaunchedBy(sv, w, r, env);
      FirstOfPass(sv, w, s, todo, back, more, seen, env);
      PassDropsPutBack(sv, w1, t, todo[1..], back + more, seen + {r.id}, env);
      Reassociate(s.lost, back, more, PutBack(sv, w1, todo[1..], env));
    }
  }

  /** The servers that the first i records start. */
  function LaunchedUpTo(sv: Servers, w: set<Svid>, queue: seq<QueueRec>, env: Env, i: nat): set<Svid>
    requires i <= |queue|
    decreases i
  {
    if i == 0 then w else LaunchedUpTo(sv, LaunchedBy(sv, w, queue[0], env), queue[1..], env, i - 1)
  }

  /** The record at i is not put back. */
  ghost predicate Settled(sv: Servers, w: set<Svid>, queue: seq<QueueRec>, env: Env, i: nat)
    requires i < |queue|
  {
    !GoesBack(sv, LaunchedUpTo(sv, w, queue, env, i), queue[i], env)
  }

  lemma {:induction false} NothingPutBack(sv: Servers, w: set<Svid>, queue: seq<QueueRec>, env: Env)
    ensures PutBack(sv, w, queue, env) == [] <==> forall i :: 0 <= i < |queue| ==> Settled(sv, w, queue, env, i)
    decreases |queue|
  {
    hide GoesBack, LaunchedBy;
    if queue != [] {
      var w1 := LaunchedBy(sv, w, queue[0], env);
      NothingPutBack(sv, w1, queue[1..], env);
      assert Settled(sv, w, queue, env, 0) <==> !GoesBack(sv, w, queue[0], env);
      forall i | 0 <= i < |queue| - 1
        ensures Settled(sv, w1, queue[1..], env, i) <==> Settled(sv, w, queue, env, i + 1)
      {
      }
      if exists i :: 0 <= i < |queue| && !Settled(sv, w, queue, env, i) {
        var i :| 0 <= i < |queue| && !Settled(sv, w, queue, env, i);
        if i > 0 { assert !Settled(sv, w1, queue[1..], env, i - 1); }
      }
    }
  }

  /** When the queue loses requests: executing it drops nothing if and only if no record meets, as
      the pass begins or after the launches of the records before it, a server that is still
      starting, or one that it starts itself, or, for an invocation, one that is held or stopped. */
  lemma PassLosesNothingIff(s: State, env: Env)
    requires DistinctIds(s.queue, {})
    ensures var t := ExecNow(s, env);
            && t.queue == []
            && t.lost == s.lost + PutBack(s.servers, {}, s.queue, env)
            && (t.lost == s.lost <==> forall i :: 0 <= i < |s.queue| ==> Settled(s.servers, {}, s.queue, env, i))
  {
    hide Launched, GoesBack, LaunchedBy, Exec;
    NoneLaunched(s.servers, env);
    PassDropsPutBack(s.servers, {}, s.(scheduled := false), s.queue, [], {}, env);
    NothingPutBack(s.servers, {}, s.queue, env);
    assert s.queue + [] == s.queue;
  }

  /** Two servers that have been started and have not announced themselves yet. */
  function TwoStarting(): State
  {
    var inf := FreshInf.(pstate := Started, proc := Some(0));
    State(true, Servers(map["a" := inf, "b" := inf], 1, []), map[], 0, map[], [], false, [], multiset{}, [])
  }

  /** A run that loses a request. The client's request for b waits in the queue; when the other
      server announces itself the queue is executed, the request goes back because b is not
      ready, and the same pass meets it again and forgets it. */
  lemma RequestIsLost(env: Env)
    ensures var es := [InvokeEv(7, "b", true, env), ActivateEv("a"), TimerEv(env)];
            LegalRun(TwoStarting(), es) && Where(Run(TwoStarting(), es), 7) == Places([], 0, {}, 0, 1)
  {
    var r, s := InvokeRec(7, "b", true), TwoStarting();
    var e0, e1, e2 := InvokeEv(7, "b", true, env), ActivateEv("a"), TimerEv(env);
    var s1 := Step(s, e0);
    assert s1.queue == [r];
    var s2 := Step(s1, e1);
    assert s2.queue == [r] && s2.scheduled && s2.answers == [] && s2.lost == [] && s2.requests == map[];
    assert Legal(s, e0) && Legal(s1, e1) && Legal(s2, e2);
    LastStep(s2, env);
    RunOfThree(s, e0, e1, e2);
  }

  lemma RunOfThree(s: State, e0: Event, e1: Event, e2: Event)
    requires Legal(s, e0) && Legal(Step(s, e0), e1) && Legal(Step(Step(s, e0), e1), e2)
    ensures LegalRun(s, [e0, e1, e2]) && Run(s, [e0, e1, e2]) == Step(Step(Step(s, e0), e1), e2)
  {
    hide Step;
    hide Legal;
    var s1, s2 := Step(s, e0), Step(Step(s, e0), e1);
    assert [e2][1..] == [] && [e1, e2][1..] == [e2] && [e0, e1, e2][1..] == [e1, e2];
    var s3 := Step(s2, e2);
    assert LegalRun(s3, []) && Run(s3, []) == s3;
    assert [e2][0] == e2 && LegalRun(s2, [e2]);
    assert Run(s2, [e2]) == Run(s3, []);
    assert LegalRun(s1, [e1, e2]) && Run(s1, [e1, e2]) == Run(s2, [e2]);
  }

  lemma OnlyLost(p: Places)
    requires p.Total() == 1 && p.lost == 1
    ensures p == Places([], 0, {}, 0, 1)
  {
    assert |p.slots| == 0;
  }

  lemma OneWaiting(s: State, env: Env)
    requires s.queue == [InvokeRec(7, "b", true)] && s.requests == map[] && s.answers == [] && s.lost == []
    requires s.cancelled == multiset{}
    ensures OnlyInvoked(s, 7) && Where(s, 7).Total() == 1
  {
    assert s.queue[1..] == [];
    assert Count(s.queue, 7) == 1 + Count(s.queue[1..], 7);
    assert s.Slots(7) == {};
  }

  lemma LastStep(s: State, env: Env)
    requires s.queue == [InvokeRec(7, "b", true)] && s.lost == [] && s.answers == [] && s.requests == map[]
    requires s.sent == map[] && s.cancelled == multiset{}
    requires "b" in s.servers.svmap && s.servers.svmap["b"].pstate == Started
    ensures Where(ExecNow(s, env), 7) == Places([], 0, {}, 0, 1)
  {
    var r, s0 := s.queue[0], s.(scheduled := false);
    PassLosesNothingIff(s, env);
    assert PutBack(s.servers, {}, [r], env) == [r] by {
      assert [r][1..] == [] && GoesBack(s.servers, {}, r, env);
    }
    assert ExecNow(s, env).lost == [r];
    PassPlaces(s0, {}, env, 7);
    OneWaiting(s0, env);
    OneOfOne(r);
    OnlyLost(Where(ExecNow(s, env), 7));
  }

  lemma OneOfOne(r: QueueRec)
    ensures Count([r], r.id) == 1
  {
    assert [r][1..] == [];
  }

  /** A bind is lost in the same way. */
  lemma BindIsLost(env: Env)
    requires env.Serving("IDL:Account:1.0", "") == ["b"]
    ensures var r, s := BindRec(7, "IDL:Account:1.0", ""), TwoStarting();
            ExecNow(s.Queued(r), env).lost == [r] && ExecNow(s.Queued(r), env).queue == []
  {
    var r := BindRec(7, "IDL:Account:1.0", "");
    var s := TwoStarting().Queued(r);
    PassLosesNothingIff(s, env);
    assert s.queue == [r] && [r][1..] == [];
    assert "b" in ["b"] && Waits(s.servers, {}, "b", env);
    assert GoesBack(s.servers, {}, r, env);
  }
}
