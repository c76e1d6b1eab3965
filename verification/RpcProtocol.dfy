/**
 The request/response protocol between any number of endpoints, each of which may issue
 synchronous and callback requests at the same time. Both tables of an endpoint number
 their requests from 1, so a number alone does not identify a request; a reply carries the
 number and the model of its request and travels back over the session of the request.
 */
module RpcProtocol {
  import opened RpcTypes
  import opened Wrappers
  import RpcFraming
  import Sync = SyncProxy
  import Cb = CallbackProxy

  /** A session is named by the endpoint at its other end. */
  type Node = nat
  type Content = seq<RpcFraming.byte>

  /** What the receiving side sees of a frame. */
  datatype Packet = Packet(src: Node, dst: Node, request: bool, model: RpcModel, id: nat, content: Content)

  /** Which replies an endpoint may give to which arguments; the bound functions of the application. */
  type Service = (Node, Content, Content) -> bool

  datatype Request = Request(dst: Node, args: Content)

  datatype Phase = Created | Waiting | TimedOut | Ready | Returned(status: MsgStatus, msg: Option<Packet>)

  /** A synchronous call and how far its thread has come. */
  datatype Call = Call(request: Request, phase: Phase)

  datatype Endpoint = Endpoint(sync: Sync.Table<Packet>, calls: map<nat, Call>,
                               cb: Cb.State<Packet>, args: map<nat, Content>)

  /**
   The endpoints, the frames under way (numbered as sent), and those of them whose receiver
   has looked the promise up but not set it yet. `broken` records a promise set twice.
   */
  datatype Net = Net(ends: map<Node, Endpoint>, packets: map<nat, Packet>, held: set<nat>, sent: nat, broken: bool)

  const IDLE := Endpoint(Sync.Initial<Packet>(), map[], Cb.Start<Packet>(), map[])

  function Start(nodes: set<Node>): Net {
    Net(map n | n in nodes :: IDLE, map[], {}, 0, false)
  }

  // ------------------------------------------------------------- one endpoint

  function NewCall(e: Endpoint, r: Request): Endpoint {
    var t := Sync.Issue(e.sync);
    e.(sync := t, calls := e.calls[t.curReqId := Call(r, Created)])
  }

  function WithPhase(e: Endpoint, id: nat, phase: Phase): Endpoint
    requires id in e.calls
  {
    e.(calls := e.calls[id := e.calls[id].(phase := phase)])
  }

  /** The send; when it fails the call returns and its promise stays in the table. */
  function SendCall(e: Endpoint, id: nat, ok: bool): Endpoint
    requires id in e.calls
  {
    WithPhase(e, id, if ok then Waiting else Returned(SendError, None))
  }

  /** The wait is over: the promise is set, or the time is up. */
  function EndWait(e: Endpoint, id: nat): Endpoint
    requires id in e.calls
  {
    WithPhase(e, id, if id in e.sync.values then Ready else TimedOut)
  }

  /** The promise leaves the table, and the call returns what the wait had found. */
  function FinishCall(e: Endpoint, id: nat): Endpoint
    requires id in e.calls && (e.calls[id].phase == Ready ==> id in e.sync.values)
  {
    WithPhase(e, id, if e.calls[id].phase == Ready then Returned(Ok, Some(e.sync.values[id]))
        else Returned(Timeout, None))
      .(sync := Sync.Drop(e.sync, id))
  }

  function Fulfil(e: Endpoint, id: nat, p: Packet): Endpoint {
    e.(sync := Sync.SetValue(e.sync, id, p))
  }

  function NewCallback(e: Endpoint, r: Request): Endpoint {
    var s := Cb.Next(e.cb, Cb.CallInsert(r.dst));
    e.(cb := s, args := e.args[s.table.curReqId := r.args])
  }

  function StepCallback(e: Endpoint, step: Cb.Step<Packet>): Endpoint
    requires Cb.Enabled(e.cb, step)
  {
    e.(cb := Cb.Next(e.cb, step))
  }

  /** The request behind a number of one of the two tables, once it has left the endpoint. */
  function RequestOf(e: Endpoint, model: RpcModel, id: nat): Option<Request> {
    match model
    case Future => if id in e.calls && e.calls[id].phase != Created then Some(e.calls[id].request) else None
    case Callback =>
      if id in e.cb.stages && e.cb.stages[id] == Cb.Finished && id in e.cb.sessions && id in e.args
      then Some(Request(e.cb.sessions[id], e.args[id]))
      else None
  }

  // ------------------------------------------------------------- steps

  datatype Step =
    | SyncCall(n: Node, request: Request)
    | SyncSend(n: Node, id: nat, ok: bool)
    | WaitEnds(n: Node, id: nat)
    | WaitReturns(n: Node, id: nat)
    | CallbackCall(n: Node, request: Request)
    | CallbackSend(n: Node, id: nat, ok: bool)
    | CallbackStep(n: Node, step: Cb.Step<Packet>)
    | HandleRequest(k: nat, content: Content, ok: bool)
    | HandleReply(k: nat)
    | SetPromise(k: nat)
    | Lose(k: nat)

  predicate InPhase(net: Net, n: Node, id: nat, phase: Phase) {
    n in net.ends && id in net.ends[n].calls && net.ends[n].calls[id].phase == phase
  }

  /** A frame nobody has started to handle, for an endpoint that exists. */
  predicate Arrived(net: Net, k: nat) {
    k in net.packets && k !in net.held && net.packets[k].dst in net.ends
  }

  predicate Enabled(service: Service, net: Net, step: Step) {
    match step
    case SyncCall(n, _) => n in net.ends
    case SyncSend(n, id, _) => InPhase(net, n, id, Created)
    case WaitEnds(n, id) => InPhase(net, n, id, Waiting)
    case WaitReturns(n, id) =>
      InPhase(net, n, id, TimedOut) || (InPhase(net, n, id, Ready) && id in net.ends[n].sync.values)
    case CallbackCall(n, _) => n in net.ends
    case CallbackSend(n, id, ok) =>
      && n in net.ends && Cb.Enabled(net.ends[n].cb, Cb.CallSend(id, ok))
      && id in net.ends[n].cb.sessions && id in net.ends[n].args
    case CallbackStep(n, s) =>
      n in net.ends && Cb.Enabled(net.ends[n].cb, s) && !s.CallInsert? && !s.CallSend? && !s.Reply?
    case HandleRequest(k, content, _) =>
      Arrived(net, k) && net.packets[k].request && service(net.packets[k].dst, net.packets[k].content, content)
    case HandleReply(k) => Arrived(net, k) && !net.packets[k].request
    case SetPromise(k) => k in net.held && k in net.packets && net.packets[k].dst in net.ends
    case Lose(k) => k in net.packets && k !in net.held
  }

  function Post(net: Net, n: Node, e: Endpoint): Net {
    net.(ends := net.ends[n := e])
  }

  function Take(net: Net, k: nat): Net {
    net.(packets := net.packets - {k}, held := net.held - {k})
  }

  function Write(net: Net, p: Packet, ok: bool): Net {
    if ok then net.(packets := net.packets[net.sent := p], sent := net.sent + 1) else net
  }

  /** `rsp_bind`: number and model of the request, over the session it came from. */
  function ReplyTo(p: Packet, content: Content): Packet {
    Packet(p.dst, p.src, false, p.model, p.id, content)
  }

  function Next(service: Service, net: Net, step: Step): Net
    requires Enabled(service, net, step)
  {
    match step
    case SyncCall(n, r) => Post(net, n, NewCall(net.ends[n], r))
    case SyncSend(n, id, ok) =>
      var r := net.ends[n].calls[id].request;
      Write(Post(net, n, SendCall(net.ends[n], id, ok)), Packet(n, r.dst, true, Future, id, r.args), ok)
    case WaitEnds(n, id) => Post(net, n, EndWait(net.ends[n], id))
    case WaitReturns(n, id) => Post(net, n, FinishCall(net.ends[n], id))
    case CallbackCall(n, r) => Post(net, n, NewCallback(net.ends[n], r))
    case CallbackSend(n, id, ok) =>
      var e := net.ends[n];
      Write(Post(net, n, StepCallback(e, Cb.CallSend(id, ok))),
          Packet(n, e.cb.sessions[id], true, Callback, id, e.args[id]), ok)
    case CallbackStep(n, s) => Post(net, n, StepCallback(net.ends[n], s))
    case HandleRequest(k, content, ok) => Write(Take(net, k), ReplyTo(net.packets[k], content), ok)
    case HandleReply(k) =>
      var p := net.packets[k];
      var e := net.ends[p.dst];
      if p.model == Callback then Post(Take(net, k), p.dst, StepCallback(e, Cb.Reply(p.id, p)))
      else if p.id in e.sync.registered then net.(held := net.held + {k})
      else Take(net, k)
    case SetPromise(k) =>
      var p := net.packets[k];
      var e := net.ends[p.dst];
      Post(Take(net, k), p.dst, Fulfil(e, p.id, p)).(broken := net.broken || Sync.Satisfied(e.sync, p.id))
    case Lose(k) => Take(net, k)
  }

  function Execute(service: Service, net: Net, steps: seq<Step>): Option<Net>
    decreases |steps|
  {
    if steps == [] then Some(net)
    else if Enabled(service, net, steps[0]) then Execute(service, Next(service, net, steps[0]), steps[1..])
    else None
  }

  // ------------------------------------------------------------- invariants

  /** `p` is a reply to request `id` of endpoint `n`, and an answer to that request's own arguments. */
  predicate Answers(service: Service, n: Node, model: RpcModel, id: nat, r: Request, p: Packet) {
    !p.request && p.src == r.dst && p.dst == n && p.model == model && p.id == id && service(r.dst, r.args, p.content)
  }

  /** Calls that have not returned have their promise in the table; so have those whose send failed. */
  predicate KeepsPromise(phase: Phase) {
    phase.Returned? ==> phase.status == SendError
  }

  ghost predicate CallsOk(service: Service, n: Node, t: Sync.Table<Packet>, calls: map<nat, Call>) {
    && (forall id :: id in calls <==> 1 <= id <= t.curReqId)
    && t.registered <= calls.Keys
    && (forall id :: id in calls ==> (id in t.registered <==> KeepsPromise(calls[id].phase)))
    && (forall id :: id in t.values ==> id in calls && calls[id].phase != Created
                                        && Answers(service, n, Future, id, calls[id].request, t.values[id]))
    && (forall id :: id in calls ==> ResultOk(t, id, calls[id].phase))
  }

  predicate ResultOk(t: Sync.Table<Packet>, id: nat, phase: Phase) {
    && (phase == Ready ==> id in t.values)
    && (phase.Returned? ==> phase.status in {Ok, Timeout, SendError})
    && (phase.Returned? && phase.status == Ok ==> id in t.values && phase.msg == Some(t.values[id]))
    && (phase.Returned? && phase.status != Ok ==> phase.msg == None)
  }

  ghost predicate CallbacksOk(service: Service, n: Node, s: Cb.State<Packet>, args: map<nat, Content>) {
    && Cb.EachOnce(s.table)
    && (forall id :: id in s.stages <==> 1 <= id <= s.table.curReqId)
    && s.sessions.Keys == s.stages.Keys && args.Keys == s.stages.Keys
    && RunsOk(service, n, s.table.runs, s.sessions, args)
  }

  ghost predicate RunsOk(service: Service, n: Node, runs: seq<Cb.Run<Packet>>, sessions: map<nat, Node>,
                         args: map<nat, Content>) {
    forall i | 0 <= i < |runs| && runs[i].msg.Some? ::
      runs[i].status == Ok && runs[i].id in sessions && runs[i].id in args
      && Answers(service, n, Callback, runs[i].id, Request(sessions[runs[i].id], args[runs[i].id]), runs[i].msg.value)
  }

  ghost predicate EndpointOk(service: Service, n: Node, e: Endpoint) {
    CallsOk(service, n, e.sync, e.calls) && CallbacksOk(service, n, e.cb, e.args)
  }

  /** The endpoint whose request a frame is, or answers. */
  function Owner(p: Packet): Node {
    if p.request then p.src else p.dst
  }

  predicate SameRequest(p: Packet, q: Packet) {
    Owner(p) == Owner(q) && p.model == q.model && p.id == q.id
  }

  /** A frame is a request its owner has sent, or an answer to one; its promise is not set yet. */
  predicate PacketOk(service: Service, e: Endpoint, p: Packet) {
    var r := RequestOf(e, p.model, p.id);
    && r.Some?
    && (if p.request then p.dst == r.value.dst && p.content == r.value.args
        else Answers(service, Owner(p), p.model, p.id, r.value, p))
    && (p.model == Future ==> p.id !in e.sync.values)
  }

  ghost predicate PacketsOk(service: Service, ends: map<Node, Endpoint>, packets: map<nat, Packet>) {
    forall k :: k in packets ==> Owner(packets[k]) in ends && PacketOk(service, ends[Owner(packets[k])], packets[k])
  }

  /** One frame per request at a time. */
  ghost predicate OneFrameEach(packets: map<nat, Packet>) {
    forall i, j :: i in packets && j in packets && i != j ==> !SameRequest(packets[i], packets[j])
  }

  ghost predicate NoneFor(packets: map<nat, Packet>, p: Packet) {
    forall k :: k in packets ==> !SameRequest(packets[k], p)
  }

  ghost predicate FramesOk(net: Net) {
    && (forall k :: k in net.packets ==> k < net.sent)
    && (forall k :: k in net.held ==> k in net.packets && !net.packets[k].request && net.packets[k].model == Future)
    && OneFrameEach(net.packets)
  }

  ghost predicate EndsOk(service: Service, ends: map<Node, Endpoint>) {
    forall n :: n in ends ==> EndpointOk(service, n, ends[n])
  }

  ghost predicate Inv(service: Service, net: Net) {
    && !net.broken
    && EndsOk(service, net.ends)
    && FramesOk(net)
    && PacketsOk(service, net.ends, net.packets)
  }

  // ------------------------------------------------------------- endpoints stay in order

  /** Requests that have left the endpoint are never changed. */
  ghost predicate Advances(e: Endpoint, f: Endpoint) {
    forall model, id :: RequestOf(e, model, id).Some? ==> RequestOf(f, model, id) == RequestOf(e, model, id)
  }

  lemma NewCallOk(service: Service, n: Node, e: Endpoint, r: Request)
    requires EndpointOk(service, n, e)
    ensures EndpointOk(service, n, NewCall(e, r)) && Advances(e, NewCall(e, r))
  {
    hide CallbacksOk, Answers;
  }

  /** A call moves on, and its promise stays in the table or leaves it accordingly. */
  lemma PhaseOk(service: Service, n: Node, t: Sync.Table<Packet>, calls: map<nat, Call>, id: nat, phase: Phase,
                registered: set<nat>)
    requires CallsOk(service, n, t, calls) && id in calls && phase != Created && ResultOk(t, id, phase)
    requires registered == if KeepsPromise(phase) then t.registered + {id} else t.registered - {id}
    ensures CallsOk(service, n, t.(registered := registered), calls[id := calls[id].(phase := phase)])
  {
    hide Answers, KeepsPromise;
  }

  lemma PhaseAdvances(e: Endpoint, f: Endpoint, id: nat, phase: Phase)
    requires id in e.calls && phase != Created && f.cb == e.cb && f.args == e.args
    requires f.calls == e.calls[id := e.calls[id].(phase := phase)]
    ensures Advances(e, f)
  {
  }

  lemma Registered(service: Service, n: Node, e: Endpoint, id: nat)
    requires EndpointOk(service, n, e) && id in e.calls
    ensures KeepsPromise(e.calls[id].phase) ==> e.sync.registered + {id} == e.sync.registered
    ensures ResultOk(e.sync, id, e.calls[id].phase)
    ensures e.calls[id].phase == Created ==> id !in e.sync.values
  {
    hide CallbacksOk, Answers;
  }

  lemma SendCallOk(service: Service, n: Node, e: Endpoint, id: nat, ok: bool)
    requires EndpointOk(service, n, e) && id in e.calls && e.calls[id].phase == Created
    ensures EndpointOk(service, n, SendCall(e, id, ok)) && Advances(e, SendCall(e, id, ok))
    ensures RequestOf(e, Future, id) == None && id !in e.sync.values
    ensures RequestOf(SendCall(e, id, ok), Future, id) == Some(e.calls[id].request)
  {
    hide CallbacksOk, CallsOk, Advances;
    var phase := if ok then Waiting else Returned(SendError, None);
    Registered(service, n, e, id);
    PhaseOk(service, n, e.sync, e.calls, id, phase, e.sync.registered);
    PhaseAdvances(e, SendCall(e, id, ok), id, phase);
  }

  lemma EndWaitOk(service: Service, n: Node, e: Endpoint, id: nat)
    requires EndpointOk(service, n, e) && id in e.calls && e.calls[id].phase == Waiting
    ensures EndpointOk(service, n, EndWait(e, id)) && Advances(e, EndWait(e, id))
  {
    hide CallbacksOk, CallsOk, Advances;
    var phase := if id in e.sync.values then Ready else TimedOut;
    Registered(service, n, e, id);
    PhaseOk(service, n, e.sync, e.calls, id, phase, e.sync.registered);
    PhaseAdvances(e, EndWait(e, id), id, phase);
  }

  lemma FinishCallOk(service: Service, n: Node, e: Endpoint, id: nat)
    requires EndpointOk(service, n, e) && id in e.calls && e.calls[id].phase in {Ready, TimedOut}
    requires e.calls[id].phase == Ready ==> id in e.sync.values
    ensures EndpointOk(service, n, FinishCall(e, id)) && Advances(e, FinishCall(e, id))
  {
    hide CallbacksOk, CallsOk, Advances;
    var phase := if e.calls[id].phase == Ready then Returned(Ok, Some(e.sync.values[id])) else Returned(Timeout, None);
    PhaseOk(service, n, e.sync, e.calls, id, phase, e.sync.registered - {id});
    PhaseAdvances(e, FinishCall(e, id), id, phase);
  }

  lemma FulfilOk(service: Service, n: Node, e: Endpoint, p: Packet)
    requires EndpointOk(service, n, e) && PacketOk(service, e, p) && !p.request && p.dst == n && p.model == Future
    ensures EndpointOk(service, n, Fulfil(e, p.id, p)) && Advances(e, Fulfil(e, p.id, p))
    ensures !Sync.Satisfied(e.sync, p.id)
  {
    hide CallbacksOk, Answers;
  }

  lemma NewCallbackOk(service: Service, n: Node, e: Endpoint, r: Request)
    requires EndpointOk(service, n, e)
    ensures EndpointOk(service, n, NewCallback(e, r)) && Advances(e, NewCallback(e, r))
  {
    hide CallsOk, Answers, Cb.RunCount;
    Cb.StepKeepsOnce(e.cb, Cb.CallInsert(r.dst));
  }

  /** A step of the callback table other than a new request or a reply. */
  lemma StepCallbackOk(service: Service, n: Node, e: Endpoint, step: Cb.Step<Packet>)
    requires EndpointOk(service, n, e) && Cb.Enabled(e.cb, step) && !step.CallInsert? && !step.Reply?
    ensures EndpointOk(service, n, StepCallback(e, step)) && Advances(e, StepCallback(e, step))
    ensures step.CallSend? ==> RequestOf(e, Callback, step.id) == None
    ensures step.CallSend? && step.sent ==>
              RequestOf(StepCallback(e, step), Callback, step.id)
                  == Some(Request(e.cb.sessions[step.id], e.args[step.id]))
  {
    hide CallsOk, Answers, Cb.EachOnce;
    Cb.StepKeepsOnce(e.cb, step);
  }

  lemma ReplyCallbackOk(service: Service, n: Node, e: Endpoint, p: Packet)
    requires EndpointOk(service, n, e) && PacketOk(service, e, p) && !p.request && p.dst == n && p.model == Callback
    ensures EndpointOk(service, n, StepCallback(e, Cb.Reply(p.id, p)))
         && Advances(e, StepCallback(e, Cb.Reply(p.id, p)))
  {
    hide CallsOk, Answers, Cb.EachOnce;
    Cb.StepKeepsOnce(e.cb, Cb.Reply(p.id, p));
  }

  // ------------------------------------------------------------- the network stays in order

  lemma PostKeeps(service: Service, net: Net, n: Node, f: Endpoint)
    requires Inv(service, net) && n in net.ends && EndpointOk(service, n, f) && Advances(net.ends[n], f)
    requires forall k :: k in net.packets && Owner(net.packets[k]) == n && net.packets[k].model == Future
                         ==> net.packets[k].id !in f.sync.values
    ensures Inv(service, Post(net, n, f))
  {
    hide EndpointOk, Answers, RequestOf, FramesOk;
    FramesNotMoved(net, Post(net, n, f));
  }

  lemma FramesNotMoved(a: Net, b: Net)
    requires FramesOk(a) && a.packets == b.packets && a.held == b.held && a.sent == b.sent
    ensures FramesOk(b)
  {
  }

  /** Most steps of an endpoint set no promise. */
  lemma PostQuietly(service: Service, net: Net, n: Node, f: Endpoint)
    requires Inv(service, net) && n in net.ends && EndpointOk(service, n, f) && Advances(net.ends[n], f)
    requires f.sync.values == net.ends[n].sync.values
    ensures Inv(service, Post(net, n, f))
  {
    hide EndpointOk, Answers, RequestOf, FramesOk, EndsOk, Advances;
    PostKeeps(service, net, n, f);
  }

  lemma WriteKeeps(service: Service, net: Net, p: Packet, ok: bool)
    requires Inv(service, net)
    requires ok ==> Owner(p) in net.ends && PacketOk(service, net.ends[Owner(p)], p) && NoneFor(net.packets, p)
    ensures Inv(service, Write(net, p, ok))
  {
    hide EndsOk, PacketOk;
  }

  lemma TakeKeeps(service: Service, net: Net, k: nat)
    requires Inv(service, net) && k in net.packets
    ensures Inv(service, Take(net, k)) && NoneFor(Take(net, k).packets, net.packets[k])
  {
    hide EndsOk, PacketOk;
  }

  /** A request that has not left its endpoint has no frame under way. */
  lemma UnsentHasNoFrame(service: Service, net: Net, p: Packet)
    requires Inv(service, net) && Owner(p) in net.ends && RequestOf(net.ends[Owner(p)], p.model, p.id) == None
    ensures NoneFor(net.packets, p)
  {
    hide EndsOk, RequestOf, Answers, FramesOk;
  }

  lemma EndAt(service: Service, net: Net, n: Node)
    requires Inv(service, net) && n in net.ends
    ensures EndpointOk(service, n, net.ends[n])
  {
    hide EndpointOk, FramesOk, PacketsOk;
  }

  lemma PacketAt(service: Service, net: Net, k: nat)
    requires Inv(service, net) && k in net.packets
    ensures var p := net.packets[k]; Owner(p) in net.ends && PacketOk(service, net.ends[Owner(p)], p)
  {
    hide EndsOk, FramesOk, PacketOk;
  }

  lemma LocalStepKeeps(service: Service, net: Net, step: Step)
    requires Inv(service, net) && Enabled(service, net, step)
    requires step.SyncCall? || step.WaitEnds? || step.WaitReturns? || step.CallbackCall? || step.CallbackStep?
    ensures Inv(service, Next(service, net, step))
  {
    hide Inv, EndpointOk, Post, Advances, Cb.Next, Cb.Enabled;
    EndAt(service, net, step.n);
    var e := net.ends[step.n];
    match step
    case SyncCall(n, r) => NewCallOk(service, n, e, r); PostQuietly(service, net, n, NewCall(e, r));
    case WaitEnds(n, id) => EndWaitOk(service, n, e, id); PostQuietly(service, net, n, EndWait(e, id));
    case WaitReturns(n, id) => FinishCallOk(service, n, e, id); PostQuietly(service, net, n, FinishCall(e, id));
    case CallbackCall(n, r) => NewCallbackOk(service, n, e, r); PostQuietly(service, net, n, NewCallback(e, r));
    case CallbackStep(n, s) => StepCallbackOk(service, n, e, s); PostQuietly(service, net, n, StepCallback(e, s));
  }

  lemma SyncSendKeeps(service: Service, net: Net, n: Node, id: nat, ok: bool)
    requires Inv(service, net) && InPhase(net, n, id, Created)
    ensures Inv(service, Next(service, net, SyncSend(n, id, ok)))
  {
    hide Inv, EndpointOk, Advances, RequestOf, SendCall;
    EndAt(service, net, n);
    var e, f := net.ends[n], SendCall(net.ends[n], id, ok);
    var p := Packet(n, e.calls[id].request.dst, true, Future, id, e.calls[id].request.args);
    SendCallOk(service, n, e, id, ok);
    SendKeepsValues(e, id, ok);
    UnsentHasNoFrame(service, net, p);
    PostQuietly(service, net, n, f);
    WriteKeeps(service, Post(net, n, f), p, ok);
  }

  lemma SendKeepsValues(e: Endpoint, id: nat, ok: bool)
    requires id in e.calls
    ensures SendCall(e, id, ok).sync == e.sync
  {
  }

  lemma CallbackSendKeeps(service: Service, net: Net, n: Node, id: nat, ok: bool)
    requires Inv(service, net) && Enabled(service, net, CallbackSend(n, id, ok))
    ensures Inv(service, Next(service, net, CallbackSend(n, id, ok)))
  {
    hide Inv, EndpointOk, Advances, RequestOf, Cb.Enabled, Cb.Next;
    EndAt(service, net, n);
    var e := net.ends[n];
    var f := StepCallback(e, Cb.CallSend(id, ok));
    var p := Packet(n, e.cb.sessions[id], true, Callback, id, e.args[id]);
    StepCallbackOk(service, n, e, Cb.CallSend(id, ok));
    UnsentHasNoFrame(service, net, p);
    PostQuietly(service, net, n, f);
    WriteKeeps(service, Post(net, n, f), p, ok);
  }

  lemma HandleRequestKeeps(service: Service, net: Net, k: nat, content: Content, ok: bool)
    requires Inv(service, net) && Enabled(service, net, HandleRequest(k, content, ok))
    ensures Inv(service, Next(service, net, HandleRequest(k, content, ok)))
  {
    hide Inv, RequestOf;
    var p := net.packets[k];
    PacketAt(service, net, k);
    TakeKeeps(service, net, k);
    SameRequestFrames(Take(net, k).packets, p, ReplyTo(p, content));
    WriteKeeps(service, Take(net, k), ReplyTo(p, content), ok);
  }

  lemma SameRequestFrames(packets: map<nat, Packet>, p: Packet, q: Packet)
    requires NoneFor(packets, p) && SameRequest(p, q)
    ensures NoneFor(packets, q)
  {
  }

  lemma HandleReplyKeeps(service: Service, net: Net, k: nat)
    requires Inv(service, net) && Enabled(service, net, HandleReply(k))
    ensures Inv(service, Next(service, net, HandleReply(k)))
  {
    hide Inv, EndpointOk, Advances, PacketOk, Cb.Next;
    var p := net.packets[k];
    EndAt(service, net, p.dst);
    PacketAt(service, net, k);
    TakeKeeps(service, net, k);
    if p.model == Callback {
      ReplyCallbackOk(service, p.dst, net.ends[p.dst], p);
      PostQuietly(service, Take(net, k), p.dst, StepCallback(net.ends[p.dst], Cb.Reply(p.id, p)));
    } else {
      HoldKeeps(service, net, k);
    }
  }

  lemma HoldKeeps(service: Service, net: Net, k: nat)
    requires Inv(service, net) && k in net.packets && !net.packets[k].request && net.packets[k].model == Future
    ensures Inv(service, net.(held := net.held + {k}))
  {
    hide EndsOk, PacketsOk, OneFrameEach;
  }

  lemma SetPromiseKeeps(service: Service, net: Net, k: nat)
    requires Inv(service, net) && Enabled(service, net, SetPromise(k))
    ensures Inv(service, Next(service, net, SetPromise(k)))
  {
    hide Inv, EndpointOk, Advances, PacketOk, Take;
    var p := net.packets[k];
    HeldIsReply(service, net, k);
    var e := net.ends[p.dst];
    EndAt(service, net, p.dst);
    PacketAt(service, net, k);
    FulfilOk(service, p.dst, e, p);
    TakeKeeps(service, net, k);
    TakeOnly(net, k);
    OthersNotSet(service, Take(net, k), p, e);
    PostKeeps(service, Take(net, k), p.dst, Fulfil(e, p.id, p));
    NotBroken(service, Post(Take(net, k), p.dst, Fulfil(e, p.id, p)));
  }

  lemma HeldIsReply(service: Service, net: Net, k: nat)
    requires Inv(service, net) && k in net.held
    ensures !net.broken && k in net.packets && !net.packets[k].request && net.packets[k].model == Future
  {
  }

  lemma TakeOnly(net: Net, k: nat)
    ensures Take(net, k).ends == net.ends && Take(net, k).broken == net.broken
  {
  }

  lemma NotBroken(service: Service, net: Net)
    requires Inv(service, net)
    ensures !net.broken
  {
  }

  /** Once the frame of a reply is off the network, setting its promise concerns no frame under way. */
  lemma OthersNotSet(service: Service, net: Net, p: Packet, e: Endpoint)
    requires Inv(service, net) && NoneFor(net.packets, p) && p.model == Future && !p.request
    requires p.dst in net.ends && net.ends[p.dst] == e
    ensures forall k :: k in net.packets && Owner(net.packets[k]) == p.dst && net.packets[k].model == Future
              ==> net.packets[k].id !in Fulfil(e, p.id, p).sync.values
  {
    hide EndsOk, FramesOk, Answers, RequestOf;
    forall k | k in net.packets && Owner(net.packets[k]) == p.dst && net.packets[k].model == Future
      ensures net.packets[k].id !in Fulfil(e, p.id, p).sync.values
    {
      assert !SameRequest(net.packets[k], p);
      assert PacketOk(service, e, net.packets[k]);
    }
  }

  lemma StepKeeps(service: Service, net: Net, step: Step)
    requires Inv(service, net) && Enabled(service, net, step)
    ensures Inv(service, Next(service, net, step))
  {
    hide Inv, Post, Take, Write, EndWait, FinishCall, NewCall, SendCall, NewCallback, StepCallback, Fulfil, Cb.Enabled;
    match step
    case SyncSend(n, id, ok) => SyncSendKeeps(service, net, n, id, ok);
    case CallbackSend(n, id, ok) => CallbackSendKeeps(service, net, n, id, ok);
    case HandleRequest(k, content, ok) => HandleRequestKeeps(service, net, k, content, ok);
    case HandleReply(k) => HandleReplyKeeps(service, net, k);
    case SetPromise(k) => SetPromiseKeeps(service, net, k);
    case Lose(k) => TakeKeeps(service, net, k);
    case _ => LocalStepKeeps(service, net, step);
  }

  lemma StartInOrder(service: Service, nodes: set<Node>)
    ensures Inv(service, Start(nodes))
  {
  }

  lemma {:induction false} RunKeeps(service: Service, net: Net, steps: seq<Step>)
    requires Inv(service, net) && Execute(service, net, steps).Some?
    ensures Inv(service, Execute(service, net, steps).value)
    decreases |steps|
  {
    hide Inv, Enabled, Next;
    if steps != [] {
      StepKeeps(service, net, steps[0]);
      RunKeeps(service, Next(service, net, steps[0]), steps[1..]);
    }
  }

  // ------------------------------------------------------------- what holds in every reachable state

  ghost predicate Reachable(service: Service, net: Net) {
    exists nodes: set<Node>, steps: seq<Step> :: Execute(service, Start(nodes), steps) == Some(net)
  }

  lemma ReachableInOrder(service: Service, net: Net)
    requires Reachable(service, net)
    ensures Inv(service, net)
  {
    hide Inv, Execute, Start;
    var nodes: set<Node>, steps: seq<Step> :| Execute(service, Start(nodes), steps) == Some(net);
    StartInOrder(service, nodes);
    RunKeeps(service, Start(nodes), steps);
  }

  /**
   No promise is ever set twice. A synchronous call that returns ok returns an answer of the
   endpoint it addressed to its own arguments, however many requests of either table, of
   however many endpoints, carry the same number.
   */
  lemma SyncCallGetsItsAnswer(service: Service, net: Net, n: Node, id: nat)
    requires Reachable(service, net) && n in net.ends && id in net.ends[n].calls
    requires net.ends[n].calls[id].phase.Returned?
    ensures !net.broken
    ensures var c := net.ends[n].calls[id];
            && (c.phase.status == Ok ==>
                  c.phase.msg.Some? && Answers(service, n, Future, id, c.request, c.phase.msg.value))
            && (c.phase.status != Ok ==> c.phase.status in {Timeout, SendError} && c.phase.msg == None)
  {
    hide CallbacksOk, PacketsOk, FramesOk;
    ReachableInOrder(service, net);
    EndAt(service, net, n);
  }

  /** Every callback runs at most once, and if it is given a reply, that is an answer to its own request. */
  lemma CallbackGetsItsAnswer(service: Service, net: Net, n: Node, i: nat)
    requires Reachable(service, net) && n in net.ends && i < |net.ends[n].cb.table.runs|
    ensures var cb := net.ends[n].cb;
            var run := cb.table.runs[i];
            && Cb.RunCount(cb.table.runs, run.id) <= 1
            && (run.msg.Some? ==>
                  && run.id in cb.sessions && run.id in net.ends[n].args
                  && Answers(service, n, Callback, run.id, Request(cb.sessions[run.id], net.ends[n].args[run.id]),
                      run.msg.value))
  {
    hide CallsOk, PacketsOk, FramesOk, Answers, Cb.RunCount;
    ReachableInOrder(service, net);
    EndAt(service, net, n);
  }

  /** `wait_for` always finds its promise: it never follows a null pointer. */
  lemma WaitFindsItsPromise(service: Service, net: Net, n: Node, id: nat)
    requires Reachable(service, net) && InPhase(net, n, id, Waiting)
    ensures id in net.ends[n].sync.registered
  {
    hide CallbacksOk, PacketsOk, FramesOk;
    ReachableInOrder(service, net);
    EndAt(service, net, n);
  }

  /** The lookups that guard a step never fail: a step is held up only by what its thread waits for. */
  lemma LookupsSucceed(service: Service, net: Net, n: Node, id: nat, k: nat)
    requires Reachable(service, net)
    ensures InPhase(net, n, id, Ready) ==> id in net.ends[n].sync.values
    ensures n in net.ends && id in net.ends[n].cb.stages ==> id in net.ends[n].cb.sessions && id in net.ends[n].args
    ensures k in net.held ==> Enabled(service, net, SetPromise(k))
  {
    hide Inv, EndpointOk, Reachable, Enabled;
    ReachableInOrder(service, net);
    if n in net.ends {
      EndAt(service, net, n);
      ReadyHasValue(service, n, net.ends[n], id);
      IssuedHasRequest(service, n, net.ends[n], id);
    }
    if k in net.held {
      HeldCanBeSet(service, net, k);
    }
  }

  lemma ReadyHasValue(service: Service, n: Node, e: Endpoint, id: nat)
    requires EndpointOk(service, n, e)
    ensures id in e.calls && e.calls[id].phase == Ready ==> id in e.sync.values
  {
    hide CallbacksOk, Answers;
  }

  lemma IssuedHasRequest(service: Service, n: Node, e: Endpoint, id: nat)
    requires EndpointOk(service, n, e)
    ensures id in e.cb.stages ==> id in e.cb.sessions && id in e.args
  {
    hide CallsOk, RunsOk, Cb.EachOnce;
  }

  lemma HeldCanBeSet(service: Service, net: Net, k: nat)
    requires Inv(service, net) && k in net.held
    ensures Enabled(service, net, SetPromise(k))
  {
    hide Inv, PacketOk;
    HeldIsReply(service, net, k);
    PacketAt(service, net, k);
  }

  /** The promises left in the table are those of calls that have not returned, and those of failed sends. */
  lemma PromisesLeft(service: Service, net: Net, n: Node, id: nat)
    requires Reachable(service, net) && n in net.ends
    ensures var e := net.ends[n];
            id in e.sync.registered <==>
              id in e.calls && (e.calls[id].phase.Returned? ==> e.calls[id].phase.status == SendError)
  {
    hide CallbacksOk, PacketsOk, FramesOk, Answers;
    ReachableInOrder(service, net);
    EndAt(service, net, n);
  }

  /** At most one frame is under way for each request, whichever way it travels. */
  lemma OneFrameUnderWay(service: Service, net: Net, i: nat, j: nat)
    requires Reachable(service, net) && i in net.packets && j in net.packets && i != j
    ensures !SameRequest(net.packets[i], net.packets[j])
  {
    hide EndsOk, PacketsOk;
    ReachableInOrder(service, net);
  }
}
