/** The state of the POA mediator (daemon/poamediator.h) and what each of its operations does to
    it (daemon/poamediator.cc), with the request queue it uses (orb/queue.cc).

    The ORB, the processes and the clock are the environment: ids of messages and processes are
    issued by counters, and Env carries what the environment answers during one call. */
module Mediator {
  import opened Wrappers

  type Svid = string
  type Pid = nat
  type MsgId = nat   // an id issued by new_msgid for a message of the mediator's own
  type ReqId = nat   // the id of a client's request

  datatype ServerState = Inactive | Started | Active | Holding | Stopped | Failed

  datatype SvInf = SvInf(pstate: ServerState, proc: Option<Pid>, failed: int, ior: string)

  const FreshInf := SvInf(Inactive, None, 0, "")

  datatype LocateStatus = LocateUnknown | LocateHere | LocateForward

  datatype InvokeStatus = SysEx | Forward(ior: string) | Reply(status: nat)

  datatype Answer = InvokeAnswer(id: ReqId, istat: InvokeStatus) | BindAnswer(id: ReqId, bstat: LocateStatus)

  datatype QueueRec =
    | InvokeRec(id: ReqId, svid: Svid, twoWay: bool)
    | BindRec(id: ReqId, repoid: string, tag: string)

  /** What was sent under a message id. */
  datatype Message = InvokeMsg | BindMsg

  datatype Launch = Launch(svid: Svid, pid: Pid, time: int)

  /** now: the clock in seconds; commands: the command lines the implementation repository
      finds by server name; serving: the activatable servers it finds for a repository id and
      tag; forkOk: whether a process can be created. */
  datatype Env = Env(now: int, commands: map<Svid, string>, serving: map<(string, string), seq<Svid>>, forkOk: bool)
  {
    function Serving(repoid: string, tag: string): seq<Svid>
    {
      if (repoid, tag) in serving then serving[(repoid, tag)] else []
    }
  }

  /** The server map, with the processes started so far. */
  datatype Servers = Servers(svmap: map<Svid, SvInf>, nextPid: Pid, launches: seq<Launch>)
  {
    /** svmap[svid], which inserts a fresh entry for an unknown name. */
    function Inf(svid: Svid): SvInf
    {
      if svid in svmap then svmap[svid] else FreshInf
    }

    function Put(svid: Svid, inf: SvInf): Servers { this.(svmap := svmap[svid := inf]) }

    function Active(): set<Svid> { set v | v in svmap && svmap[v].pstate == ServerState.Active }
  }

  function SlotsIn(requests: map<MsgId, ReqId>, id: ReqId): set<MsgId>
  {
    set m | m in requests && requests[m] == id
  }

  /** answers, launches, cancelled and lost only grow: they record what the mediator told its
      clients, the processes it started, the slots it cancelled (by request) and the records
      the queue dropped. scheduled is the pending zero-timeout timer of the queue. */
  datatype State = State(
    forward: bool,
    servers: Servers,
    requests: map<MsgId, ReqId>,
    nextMsg: MsgId,
    sent: map<MsgId, Message>,
    queue: seq<QueueRec>,
    scheduled: bool,
    answers: seq<Answer>,
    cancelled: multiset<ReqId>,
    lost: seq<QueueRec>)
  {
    function Told(a: Answer): State { this.(answers := answers + [a]) }

    function Queued(r: QueueRec): State { this.(queue := queue + [r]) }

    function Slots(id: ReqId): set<MsgId> { SlotsIn(requests, id) }

    /** Message ids are fresh, and every outstanding slot was sent. */
    ghost predicate Valid()
    {
      && (forall m :: m in sent ==> m < nextMsg)
      && (forall m :: m in requests ==> m in sent)
    }
  }

  // ---------------------------------------------------------------------------------------
  // The operations

  /** A server that create_server would launch now. */
  predicate Startable(sv: Servers, svid: Svid, env: Env)
  {
    var inf := sv.Inf(svid);
    && (inf.pstate == Inactive || (inf.pstate == Failed && env.now - inf.failed >= 30))
    && svid in env.commands && env.commands[svid] != ""
  }

  function CreateServer(sv: Servers, svid: Svid, env: Env): (r: (Servers, bool))
    requires sv.Inf(svid).pstate != Holding && sv.Inf(svid).pstate != Stopped
  {
    var inf := sv.Inf(svid);
    if inf.pstate == Started || inf.pstate == Active then (sv.Put(svid, inf), true)
    else if inf.pstate == Failed && env.now - inf.failed < 30 then (sv.Put(svid, inf), false)
    else if Startable(sv, svid, env) then
      (Servers(sv.svmap[svid := inf.(pstate := Started, proc := Some(sv.nextPid))],
               sv.nextPid + 1, sv.launches + [Launch(svid, sv.nextPid, env.now)]),
       env.forkOk)
    else (sv.Put(svid, inf.(pstate := Inactive)), false)
  }

  /** Forward an invocation to its server under a new message id; only a two-way invocation
      leaves a slot for the reply. */
  function Send(s: State, id: ReqId, twoWay: bool): (s': State)
  {
    s.(requests := if twoWay then s.requests[s.nextMsg := id] else s.requests,
       sent := s.sent[s.nextMsg := InvokeMsg], nextMsg := s.nextMsg + 1)
  }

  /** What an invocation meets: nothing to talk to, a server that is not ready, or one that is. */
  datatype Reception = Gone | NotReady | Ready(ior: string)

  function Approach(sv: Servers, svid: Svid, env: Env): (r: (Servers, Reception))
  {
    if svid !in sv.svmap then (sv, Gone)
    else
      var inf := sv.svmap[svid];
      match inf.pstate
      case Stopped => (sv, NotReady)
      case Holding => (sv, NotReady)
      case Active => (sv, Reception.Ready(inf.ior))
      case _ =>
        var (sv1, ok) := CreateServer(sv, svid, env);
        (sv1, if ok then NotReady else Gone)
  }

  function Invoke(s: State, id: ReqId, svid: Svid, twoWay: bool, env: Env): (s': State)
  {
    var (sv, reception) := Approach(s.servers, svid, env);
    var t := s.(servers := sv);
    match reception
    case Gone => t.Told(InvokeAnswer(id, SysEx))
    case NotReady => t.Queued(InvokeRec(id, svid, twoWay))
    case Ready(ior) =>
      if twoWay && s.forward then t.Told(InvokeAnswer(id, Forward(ior))) else Send(t, id, twoWay)
  }

  /** Result of going through the servers of a bind: all up, some started, or a failure. */
  datatype Readiness = AllUp | Waiting | Refused

  function StartAll(sv: Servers, names: seq<Svid>, env: Env, sofar: Readiness): (r: (Servers, Readiness))
    requires sofar != Refused
    decreases |names|
  {
    if names == [] then (sv, sofar)
    else
      var v, inf := names[0], sv.Inf(names[0]);
      if inf.pstate != Active && inf.pstate != Stopped && inf.pstate != Holding then
        var (sv1, ok) := CreateServer(sv, v, env);
        if !ok then (sv1, Refused) else StartAll(sv1, names[1..], env, Waiting)
      else StartAll(sv.Put(v, inf), names[1..], env, sofar)
  }

  /** The next n message ids. */
  function FreshIds(first: MsgId, n: nat): (ids: set<MsgId>)
    ensures forall m :: m in ids <==> first <= m < first + n
    ensures |ids| == n
  {
    if n == 0 then {} else FreshIds(first, n - 1) + {first + n - 1}
  }

  /** m with the next n message ids added, each with the same value. */
  function WithMany<T>(m: map<MsgId, T>, first: MsgId, n: nat, x: T): map<MsgId, T>
  {
    if n == 0 then m else WithMany(m, first, n - 1, x)[first + n - 1 := x]
  }

  lemma {:induction false} WithManyAt<T>(m: map<MsgId, T>, first: MsgId, n: nat, x: T)
    ensures var r := WithMany(m, first, n, x);
            && (forall k :: k in r <==> k in m || first <= k < first + n)
            && (forall k :: k in r ==> r[k] == if first <= k < first + n then x else m[k])
  {
    if n > 0 { WithManyAt(m, first, n - 1, x); }
  }

  /** n slots of a request. */
  function AllocateN(s: State, id: ReqId, n: nat): (s': State)
  {
    s.(requests := WithMany(s.requests, s.nextMsg, n, id),
       sent := WithMany(s.sent, s.nextMsg, n, BindMsg),
       nextMsg := s.nextMsg + n)
  }

  /** One slot for every Active server, allocated before anything is sent. */
  function Broadcast(s: State, id: ReqId): (s': State)
  {
    AllocateN(s, id, |s.servers.Active()|)
  }

  /** The flag is false when the mediator has nothing to do with the request. */
  function Bind(s: State, id: ReqId, repoid: string, tag: string, env: Env): (r: (State, bool))
  {
    var names := env.Serving(repoid, tag);
    var (sv, ready) := StartAll(s.servers, names, env, AllUp);
    match ready
    case Refused => (s.(servers := sv).Told(BindAnswer(id, LocateUnknown)), true)
    case Waiting => (s.(servers := sv).Queued(BindRec(id, repoid, tag)), true)
    case AllUp => if names == [] then (s, false) else (Broadcast(s.(servers := sv), id), true)
  }

  function Without(requests: map<MsgId, ReqId>, id: ReqId): map<MsgId, ReqId>
  {
    map m | m in requests && requests[m] != id :: requests[m]
  }

  function Cancel(s: State, id: ReqId): (s': State)
  {
    s.(requests := Without(s.requests, id),
       cancelled := s.cancelled[id := s.cancelled[id] + |s.Slots(id)|])
  }

  function Erase(s: State, m: MsgId): State
  {
    s.(requests := s.requests - {m})
  }

  function NotifyInvoke(s: State, m: MsgId, status: InvokeStatus): (s': State)
    requires m in s.requests
  {
    Erase(s, m).Told(InvokeAnswer(s.requests[m], status))
  }

  function NotifyBind(s: State, m: MsgId, stat: LocateStatus): (s': State)
  {
    if m !in s.requests then s  // a late reply to a cancelled slot
    else
      var id, s1 := s.requests[m], Erase(s, m);
      if stat == LocateHere then Cancel(s1.Told(BindAnswer(id, stat)), id)
      else if s1.Slots(id) == {} then s1.Told(BindAnswer(id, stat))
      else s1
  }

  /** ReqQueueRec::exec. */
  function Exec(s: State, r: QueueRec, env: Env): (s': State)
  {
    match r
    case InvokeRec(id, svid, twoWay) => Invoke(s, id, svid, twoWay, env)
    case BindRec(id, repoid, tag) =>
      var (s1, handled) := Bind(s, id, repoid, tag, env);
      if handled then s1 else s1.Told(BindAnswer(id, LocateUnknown))
  }

  function Unseen(queue: seq<QueueRec>, seen: set<ReqId>): (n: nat)
    ensures n <= |queue|
  {
    if queue == [] then 0
    else (if queue[0].id in seen then 0 else 1) + Unseen(queue[1..], seen)
  }

  /** Seeing one more id never raises the count, and lowers it when a record bears the id. */
  lemma {:induction false} UnseenShrinks(queue: seq<QueueRec>, seen: set<ReqId>, id: ReqId)
    ensures Unseen(queue, seen + {id}) <= Unseen(queue, seen)
  {
    if queue != [] { UnseenShrinks(queue[1..], seen, id); }
  }

  lemma {:induction false} UnseenAppend(queue: seq<QueueRec>, r: QueueRec, seen: set<ReqId>)
    ensures Unseen(queue + [r], seen) == Unseen(queue, seen) + if r.id in seen then 0 else 1
  {
    if queue != [] {
      assert (queue + [r])[1..] == queue[1..] + [r];
      UnseenAppend(queue[1..], r, seen);
    }
  }

  lemma InvokeQueue(s: State, id: ReqId, svid: Svid, twoWay: bool, env: Env)
    ensures var s' := Invoke(s, id, svid, twoWay, env);
            && (s'.queue == s.queue || s'.queue == s.queue + [InvokeRec(id, svid, twoWay)])
            && s'.scheduled == s.scheduled && s'.lost == s.lost
  {
  }

  lemma BindQueue(s: State, id: ReqId, repoid: string, tag: string, env: Env)
    ensures var s' := Bind(s, id, repoid, tag, env).0;
            && (s'.queue == s.queue || (s'.queue == s.queue + [BindRec(id, repoid, tag)] &&
                Bind(s, id, repoid, tag, env).1))
            && s'.scheduled == s.scheduled && s'.lost == s.lost
  {
    var (sv, ready) := StartAll(s.servers, env.Serving(repoid, tag), env, AllUp);
    match ready
    case Refused =>
    case Waiting =>
    case AllUp =>
  }

  /** Executing a record puts back at most that record. */
  lemma ExecQueue(s: State, r: QueueRec, env: Env)
    ensures var s' := Exec(s, r, env);
            && (s'.queue == s.queue || s'.queue == s.queue + [r])
            && s'.scheduled == s.scheduled && s'.lost == s.lost
  {
    match r
    case InvokeRec(id, svid, twoWay) => InvokeQueue(s, id, svid, twoWay, env);
    case BindRec(id, repoid, tag) => BindQueue(s, id, repoid, tag, env);
  }

  /** RequestQueue::exec_now: take records off the front until none is left. A record whose id
      was already seen in this pass is taken off and forgotten. */
  function ExecPass(s: State, seen: set<ReqId>, env: Env): (s': State)
    decreases Unseen(s.queue, seen), |s.queue|
  {
    if s.queue == [] then s
    else
      var r, rest := s.queue[0], s.(queue := s.queue[1..]);
      if r.id in seen then ExecPass(rest.(lost := rest.lost + [r]), seen, env)
      else
        ExecQueue(rest, r, env);
        UnseenShrinks(rest.queue, seen, r.id);
        UnseenAppend(rest.queue, r, seen + {r.id});
        ExecPass(Exec(rest, r, env), seen + {r.id}, env)
  }

  function ExecNow(s: State, env: Env): State
  {
    ExecPass(s.(scheduled := false), {}, env)
  }

  function ExecLater(s: State): State
  {
    if s.queue == [] then s else s.(scheduled := true)
  }

  function FailAnswers(queue: seq<QueueRec>): (r: seq<Answer>)
  {
    if queue == [] then []
    else
      var r := queue[0];
      [if r.InvokeRec? then InvokeAnswer(r.id, SysEx) else BindAnswer(r.id, LocateUnknown)] + FailAnswers(queue[1..])
  }

  /** RequestQueue::fail, called on shutdown. */
  function FailAll(s: State): State
  {
    s.(queue := [], answers := s.answers + FailAnswers(s.queue))
  }

  function CreateImpl(sv: Servers, svid: Svid, ior: string): Servers
  {
    sv.Put(svid, sv.Inf(svid).(ior := ior))
  }

  /** has_object recreates the entry of a server the repository knows. */
  function HasObject(sv: Servers, svid: Svid, known: bool): Servers
  {
    if svid in sv.svmap || !known then sv else sv.Put(svid, FreshInf)
  }

  /** The flag of the next three says whether the queue is to be executed again. */
  function ActivateImpl(sv: Servers, svid: Svid): (Servers, bool)
  {
    var inf := sv.Inf(svid);
    if inf.pstate == Stopped || inf.pstate == Holding then (sv.Put(svid, inf), false)
    else (sv.Put(svid, inf.(pstate := Active)), true)
  }

  function Continue(sv: Servers, svid: Svid): (Servers, bool)
  {
    var inf := sv.Inf(svid);
    if inf.pstate == Failed || inf.pstate == Stopped || inf.pstate == Holding
    then (sv.Put(svid, inf.(pstate := Inactive)), true)
    else (sv.Put(svid, inf), false)
  }

  /** The process of a server has exited. */
  function Exited(sv: Servers, svid: Svid, now: int): (Servers, bool)
    requires svid in sv.svmap
  {
    var inf := sv.svmap[svid];
    match inf.pstate
    case Active => (sv.Put(svid, inf.(pstate := Inactive, proc := None)), false)
    case Started => (sv.Put(svid, inf.(pstate := Failed, failed := now)), true)
    case Stopped => (sv.Put(svid, inf.(proc := None)), false)
    case Holding => (sv.Put(svid, inf.(pstate := Stopped, proc := None)), false)
    case _ => (sv, false)
  }

  function After(s: State, r: (Servers, bool)): State
  {
    if r.1 then ExecLater(s.(servers := r.0)) else s.(servers := r.0)
  }

  function DeactivateImpl(sv: Servers, svid: Svid): Servers
  {
    var inf := sv.Inf(svid);
    var next := match inf.pstate
      case Active => Inactive
      case Holding => Stopped
      case other => other;
    sv.Put(svid, inf.(pstate := next, proc := None))
  }

  function ForceActivation(sv: Servers, svid: Svid, env: Env): (r: (Servers, bool))
  {
    var inf := sv.Inf(svid);
    match inf.pstate
    case Inactive => CreateServer(sv, svid, env)
    case Started => (sv.Put(svid, inf), true)
    case Active => (sv.Put(svid, inf), true)
    case Holding => (sv.Put(svid, inf.(pstate := Active)), true)
    case Stopped =>
      if inf.proc.Some? then (sv.Put(svid, inf), false)
      else CreateServer(sv.Put(svid, inf.(pstate := Inactive)), svid, env)
    case Failed => CreateServer(sv.Put(svid, inf.(pstate := Inactive)), svid, env)
  }

  function Hold(sv: Servers, svid: Svid): Servers
  {
    var inf := sv.Inf(svid);
    sv.Put(svid, if inf.pstate == Stopped then inf else inf.(pstate := Holding))
  }

  function Stop(sv: Servers, svid: Svid): Servers
  {
    sv.Put(svid, sv.Inf(svid).(pstate := Stopped))
  }
}
