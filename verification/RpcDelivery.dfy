/**
 What the protocol delivers: an undisturbed request of either kind, from any reachable
 state, ends with the reply handed to it; a wait returns exactly what its promise was set
 to; failed sends and late replies are told apart from it.
 */
module RpcDelivery {
  import opened RpcTypes
  import opened Wrappers
  import opened RpcProtocol
  import Sync = SyncProxy
  import Cb = CallbackProxy

  // ------------------------------------------------------------- runs

  lemma ExecuteCons(service: Service, net: Net, step: Step, rest: seq<Step>)
    requires Enabled(service, net, step)
    ensures Execute(service, net, [step] + rest) == Execute(service, Next(service, net, step), rest)
  {
    hide Enabled, Next;
    assert ([step] + rest)[1..] == rest;
  }

  lemma ExecuteNone(service: Service, net: Net)
    ensures Execute(service, net, []) == Some(net)
  {
  }

  lemma {:induction false} ExecuteSnoc(service: Service, net: Net, steps: seq<Step>, step: Step)
    requires Execute(service, net, steps).Some? && Enabled(service, Execute(service, net, steps).value, step)
    ensures Execute(service, net, steps + [step]) == Some(Next(service, Execute(service, net, steps).value, step))
    decreases |steps|
  {
    hide Enabled, Next;
    if steps == [] {
      ExecuteCons(service, net, step, []);
      assert steps + [step] == [step] + [];
    } else {
      assert (steps + [step])[1..] == steps[1..] + [step];
      ExecuteSnoc(service, Next(service, net, steps[0]), steps[1..], step);
    }
  }

  lemma ReachableNext(service: Service, net: Net, step: Step)
    requires Reachable(service, net) && Enabled(service, net, step)
    ensures Reachable(service, Next(service, net, step))
  {
    hide Enabled, Next, Execute, Start;
    var nodes: set<Node>, steps: seq<Step> :| Execute(service, Start(nodes), steps) == Some(net);
    ExecuteSnoc(service, Start(nodes), steps, step);
  }

  // ------------------------------------------------------------- a synchronous call

  /** The endpoint of a call that has returned the reply. */
  function Answered(e: Endpoint, id: nat, reply: Packet): Endpoint
    requires id in e.calls
  {
    e.(calls := e.calls[id := Call(e.calls[id].request, Returned(Ok, Some(reply)))],
       sync := Sync.Table(e.sync.curReqId, e.sync.registered - {id}, e.sync.values[id := reply]))
  }

  /** Before it is sent, a call has its promise in the table, unset. */
  lemma UnsentCall(service: Service, net: Net, n: Node, id: nat)
    requires Inv(service, net) && InPhase(net, n, id, Created)
    ensures id in net.ends[n].sync.registered && id !in net.ends[n].sync.values
    ensures !net.broken && net.sent !in net.packets && net.sent + 1 !in net.packets
    ensures net.sent !in net.held && net.sent + 1 !in net.held
  {
    hide CallbacksOk, PacketsOk, Answers;
    EndAt(service, net, n);
    FramesOkNumbers(net);
  }

  lemma FramesOkNumbers(net: Net)
    requires FramesOk(net)
    ensures forall k :: k >= net.sent ==> k !in net.packets && k !in net.held
  {
  }

  /** The request goes out and is answered: one frame is under way, and the call waits. */
  lemma RequestServed(service: Service, net: Net, n: Node, id: nat, content: Content)
    requires InPhase(net, n, id, Created) && net.sent !in net.packets && net.sent !in net.held
    requires var r := net.ends[n].calls[id].request; r.dst in net.ends && service(r.dst, r.args, content)
    ensures var e, k := net.ends[n], net.sent;
            var sent := Next(service, net, SyncSend(n, id, true));
            && Enabled(service, sent, HandleRequest(k, content, true))
            && Next(service, sent, HandleRequest(k, content, true))
               == Net(net.ends[n := WithPhase(e, id, Waiting)],
                      net.packets[k + 1 := Packet(e.calls[id].request.dst, n, false, Future, id, content)],
                      net.held, k + 2, net.broken)
  {
    var k := net.sent;
    var sent := Next(service, net, SyncSend(n, id, true));
    assert sent.packets - {k} == net.packets && sent.held - {k} == net.held;
  }

  /** The reply is looked up and set, and the wait ends with it. */
  lemma ReplySet(service: Service, net: Net, n: Node, id: nat, k: nat)
    requires InPhase(net, n, id, Waiting) && k in net.packets && k !in net.held
    requires var p := net.packets[k]; !p.request && p.dst == n && p.model == Future && p.id == id
    requires id in net.ends[n].sync.registered && id !in net.ends[n].sync.values && !net.broken
    ensures Enabled(service, net, HandleReply(k))
    ensures Enabled(service, Next(service, net, HandleReply(k)), SetPromise(k))
    ensures Next(service, Next(service, net, HandleReply(k)), SetPromise(k))
         == Net(net.ends[n := Fulfil(net.ends[n], id, net.packets[k])], net.packets - {k}, net.held, net.sent, false)
  {
    assert net.held + {k} - {k} == net.held;
  }

  /** What a wait leaves of an endpoint. */
  function Waited(e: Endpoint, id: nat): Endpoint
    requires id in e.calls
  {
    e.(calls := e.calls[id := Call(e.calls[id].request,
                                   if id in e.sync.values then Returned(Ok, Some(e.sync.values[id]))
                                   else Returned(Timeout, None))],
       sync := Sync.Table(e.sync.curReqId, e.sync.registered - {id}, e.sync.values))
  }

  lemma WaitSteps(service: Service, net: Net, n: Node, id: nat)
    requires InPhase(net, n, id, Waiting)
    ensures Enabled(service, net, WaitEnds(n, id))
    ensures Enabled(service, Next(service, net, WaitEnds(n, id)), WaitReturns(n, id))
    ensures Next(service, Next(service, net, WaitEnds(n, id)), WaitReturns(n, id))
         == net.(ends := net.ends[n := Waited(net.ends[n], id)])
  {
    var e := net.ends[n];
    var f := EndWait(e, id);
    assert FinishCall(f, id).calls == Waited(e, id).calls;
  }

  /**
   From every reachable state, a call that is ready to be sent, and whose request and reply
   are not lost, returns the very content the service answered with; nothing else changes.
   */
  lemma SyncCallDelivered(service: Service, net: Net, n: Node, id: nat, content: Content)
    requires Reachable(service, net) && InPhase(net, n, id, Created)
    requires var r := net.ends[n].calls[id].request; r.dst in net.ends && service(r.dst, r.args, content)
    ensures var e, k := net.ends[n], net.sent;
            Execute(service, net, [SyncSend(n, id, true), HandleRequest(k, content, true), HandleReply(k + 1),
                                   SetPromise(k + 1), WaitEnds(n, id), WaitReturns(n, id)])
              == Some(net.(ends := net.ends[n := Answered(e, id,
                             Packet(e.calls[id].request.dst, n, false, Future, id, content))], sent := k + 2))
  {
    hide Reachable, Inv, Enabled, Next, Execute;
    ReachableInOrder(service, net);
    UnsentCall(service, net, n, id);
    var e, k := net.ends[n], net.sent;
    var reply := Packet(e.calls[id].request.dst, n, false, Future, id, content);
    SendEnabled(service, net, n, id);
    RequestServed(service, net, n, id, content);
    var n1 := Next(service, net, SyncSend(n, id, true));
    var n2 := Next(service, n1, HandleRequest(k, content, true));
    ReplySet(service, n2, n, id, k + 1);
    var n3 := Next(service, n2, HandleReply(k + 1));
    var n4 := Next(service, n3, SetPromise(k + 1));
    WaitSteps(service, n4, n, id);
    var n5 := Next(service, n4, WaitEnds(n, id));
    var n6 := Next(service, n5, WaitReturns(n, id));
    assert n2.packets - {k + 1} == net.packets;
    assert Waited(n4.ends[n], id).calls == Answered(e, id, reply).calls;
    assert n6.ends == net.ends[n := Answered(e, id, reply)];
    var p5 := [WaitReturns(n, id)] + [];
    var p4 := [WaitEnds(n, id)] + p5;
    var p3 := [SetPromise(k + 1)] + p4;
    var p2 := [HandleReply(k + 1)] + p3;
    var p1 := [HandleRequest(k, content, true)] + p2;
    ExecuteNone(service, n6);
    ExecuteCons(service, n5, WaitReturns(n, id), []);
    ExecuteCons(service, n4, WaitEnds(n, id), p5);
    ExecuteCons(service, n3, SetPromise(k + 1), p4);
    ExecuteCons(service, n2, HandleReply(k + 1), p3);
    ExecuteCons(service, n1, HandleRequest(k, content, true), p2);
    ExecuteCons(service, net, SyncSend(n, id, true), p1);
    assert [SyncSend(n, id, true)] + p1
        == [SyncSend(n, id, true), HandleRequest(k, content, true), HandleReply(k + 1), SetPromise(k + 1),
            WaitEnds(n, id), WaitReturns(n, id)];
  }

  lemma SendEnabled(service: Service, net: Net, n: Node, id: nat)
    requires InPhase(net, n, id, Created)
    ensures Enabled(service, net, SyncSend(n, id, true))
  {
  }

  /** A new call gets the next number; its promise is registered, and it is ready to be sent. */
  lemma SyncCallStarts(service: Service, net: Net, n: Node, r: Request)
    requires Reachable(service, net) && n in net.ends
    ensures var e, id := net.ends[n], net.ends[n].sync.curReqId + 1;
            && id !in e.calls && Enabled(service, net, SyncCall(n, r))
            && Next(service, net, SyncCall(n, r)) == net.(ends := net.ends[n :=
                 e.(calls := e.calls[id := Call(r, Created)],
                    sync := Sync.Table(id, e.sync.registered + {id}, e.sync.values))])
  {
    hide Reachable, CallbacksOk, PacketsOk, FramesOk, Answers;
    ReachableInOrder(service, net);
    EndAt(service, net, n);
  }

  /** A call whose send fails returns at once with a send error; no frame goes out, and its promise stays. */
  lemma SyncSendFails(service: Service, net: Net, n: Node, id: nat)
    requires InPhase(net, n, id, Created)
    ensures var e := net.ends[n];
            && Enabled(service, net, SyncSend(n, id, false))
            && Next(service, net, SyncSend(n, id, false)) == net.(ends := net.ends[n :=
                 e.(calls := e.calls[id := Call(e.calls[id].request, Returned(SendError, None))])])
  {
  }

  // ------------------------------------------------------------- what a wait returns

  /** The step sets the promise of this request, to the frame in hand. */
  predicate Sets(net: Net, step: Step, n: Node, id: nat) {
    step.SetPromise? && step.k in net.packets && net.packets[step.k].dst == n && net.packets[step.k].id == id
  }

  /** The frame a promise is first set to in a run. */
  function FirstSet(service: Service, net: Net, steps: seq<Step>, n: Node, id: nat): Option<Packet>
    requires Execute(service, net, steps).Some?
    decreases |steps|
  {
    if steps == [] then None
    else if Sets(net, steps[0], n, id) then Some(net.packets[steps[0].k])
    else FirstSet(service, Next(service, net, steps[0]), steps[1..], n, id)
  }

  function PromiseOf(net: Net, n: Node, id: nat): Option<Packet> {
    if n in net.ends && id in net.ends[n].sync.values then Some(net.ends[n].sync.values[id]) else None
  }

  lemma PromiseAfterStep(service: Service, net: Net, step: Step, n: Node, id: nat)
    requires Enabled(service, net, step)
    ensures PromiseOf(Next(service, net, step), n, id)
         == if PromiseOf(net, n, id).Some? then PromiseOf(net, n, id)
            else if Sets(net, step, n, id) then Some(net.packets[step.k]) else None
  {
  }

  lemma {:induction false} PromiseAfterRun(service: Service, net: Net, steps: seq<Step>, n: Node, id: nat)
    requires Execute(service, net, steps).Some?
    ensures PromiseOf(Execute(service, net, steps).value, n, id)
         == if PromiseOf(net, n, id).Some? then PromiseOf(net, n, id) else FirstSet(service, net, steps, n, id)
    decreases |steps|
  {
    hide Enabled, Next, Sets, PromiseOf;
    if steps != [] {
      PromiseAfterStep(service, net, steps[0], n, id);
      PromiseAfterRun(service, Next(service, net, steps[0]), steps[1..], n, id);
    }
  }

  /**
   In every run, a wait that ends now returns ok and the frame its promise was set to, if
   it was set before, and otherwise a timeout and nothing; its promise leaves the table.
   */
  lemma WaitReturnsWhatWasSet(service: Service, nodes: set<Node>, steps: seq<Step>, n: Node, id: nat)
    requires Execute(service, Start(nodes), steps).Some?
    requires InPhase(Execute(service, Start(nodes), steps).value, n, id, Waiting)
    ensures var net := Execute(service, Start(nodes), steps).value;
            var e := net.ends[n];
            var phase := match FirstSet(service, Start(nodes), steps, n, id)
                         case Some(p) => Returned(Ok, Some(p))
                         case None => Returned(Timeout, None);
            Execute(service, net, [WaitEnds(n, id), WaitReturns(n, id)])
              == Some(net.(ends := net.ends[n :=
                   e.(calls := e.calls[id := Call(e.calls[id].request, phase)],
                      sync := Sync.Table(e.sync.curReqId, e.sync.registered - {id}, e.sync.values))]))
  {
    hide Execute, Enabled, Next, FirstSet;
    var net := Execute(service, Start(nodes), steps).value;
    PromiseAfterRun(service, Start(nodes), steps, n, id);
    WaitSteps(service, net, n, id);
    var ended := Next(service, net, WaitEnds(n, id));
    var p1 := [WaitReturns(n, id)] + [];
    ExecuteNone(service, Next(service, ended, WaitReturns(n, id)));
    ExecuteCons(service, ended, WaitReturns(n, id), []);
    ExecuteCons(service, net, WaitEnds(n, id), p1);
    assert [WaitEnds(n, id)] + p1 == [WaitEnds(n, id), WaitReturns(n, id)];
  }

  // ------------------------------------------------------------- a callback request

  /** The callback table of every endpoint is one that its own steps can reach. */
  ghost predicate TablesReachable(net: Net) {
    forall n :: n in net.ends ==> Cb.Reachable(net.ends[n].cb)
  }

  lemma {:induction false} CbExecuteSnoc(s: Cb.State<Packet>, steps: seq<Cb.Step<Packet>>, step: Cb.Step<Packet>)
    requires Cb.Execute(s, steps).Some? && Cb.Enabled(Cb.Execute(s, steps).value, step)
    ensures Cb.Execute(s, steps + [step]) == Some(Cb.Next(Cb.Execute(s, steps).value, step))
  {
    hide Cb.Execute, Cb.Enabled, Cb.Next;
    Cb.ExecuteAppend(s, steps, [step]);
    Cb.ExecuteOne(Cb.Execute(s, steps).value, step);
  }

  lemma CbReachableNext(s: Cb.State<Packet>, step: Cb.Step<Packet>)
    requires Cb.Reachable(s) && Cb.Enabled(s, step)
    ensures Cb.Reachable(Cb.Next(s, step))
  {
    hide Cb.Execute, Cb.Enabled, Cb.Next;
    var steps :| Cb.Execute(Cb.Start<Packet>(), steps) == Some(s);
    CbExecuteSnoc(Cb.Start<Packet>(), steps, step);
  }

  lemma StepKeepsNodes(service: Service, net: Net, step: Step)
    requires Enabled(service, net, step)
    ensures Next(service, net, step).ends.Keys == net.ends.Keys
  {
    hide Cb.Next, Cb.Enabled;
  }

  /** The step of the callback table of `n` that a step of the network contains, if any. */
  function TableStep(net: Net, step: Step, n: Node): Option<Cb.Step<Packet>> {
    match step
    case CallbackCall(m, r) => if m == n then Some(Cb.CallInsert(r.dst)) else None
    case CallbackSend(m, id, ok) => if m == n then Some(Cb.CallSend(id, ok)) else None
    case CallbackStep(m, s) => if m == n then Some(s) else None
    case HandleReply(k) =>
      if k in net.packets && net.packets[k].dst == n && net.packets[k].model == Callback
      then Some(Cb.Reply(net.packets[k].id, net.packets[k])) else None
    case _ => None
  }

  lemma StepOfTables(service: Service, net: Net, step: Step, n: Node)
    requires Enabled(service, net, step) && n in net.ends && n in Next(service, net, step).ends
    ensures var s, t := net.ends[n].cb, Next(service, net, step).ends[n].cb;
            match TableStep(net, step, n)
            case None => t == s
            case Some(step') => Cb.Enabled(s, step') && t == Cb.Next(s, step')
  {
    hide Cb.Next, Cb.Insert, Cb.Complete;
  }

  lemma StepKeepsTables(service: Service, net: Net, step: Step)
    requires TablesReachable(net) && Enabled(service, net, step)
    ensures TablesReachable(Next(service, net, step))
  {
    hide Enabled, Next, Cb.Reachable, Cb.Next, Cb.Enabled, TableStep;
    StepKeepsNodes(service, net, step);
    var next := Next(service, net, step);
    forall n | n in next.ends ensures Cb.Reachable(next.ends[n].cb) {
      StepOfTables(service, net, step, n);
      if TableStep(net, step, n).Some? {
        CbReachableNext(net.ends[n].cb, TableStep(net, step, n).value);
      }
    }
  }

  lemma {:induction false} RunKeepsTables(service: Service, net: Net, steps: seq<Step>)
    requires TablesReachable(net) && Execute(service, net, steps).Some?
    ensures TablesReachable(Execute(service, net, steps).value)
    decreases |steps|
  {
    hide TablesReachable, Enabled, Next;
    if steps != [] {
      StepKeepsTables(service, net, steps[0]);
      RunKeepsTables(service, Next(service, net, steps[0]), steps[1..]);
    }
  }

  lemma StartTables(nodes: set<Node>)
    ensures TablesReachable(Start(nodes))
  {
    assert Cb.Execute(Cb.Start<Packet>(), []) == Some(Cb.Start<Packet>());
  }

  /** So whatever holds of every reachable callback table holds of each one on the network. */
  lemma TableReachable(service: Service, net: Net, n: Node)
    requires Reachable(service, net) && n in net.ends
    ensures Cb.Reachable(net.ends[n].cb)
  {
    hide Execute, Start, Cb.Reachable;
    var nodes: set<Node>, steps: seq<Step> :| Execute(service, Start(nodes), steps) == Some(net);
    StartTables(nodes);
    RunKeepsTables(service, Start(nodes), steps);
  }

  /** A callback request that has recorded its timer, with a callback that nothing has completed yet. */
  predicate ReadyToSend(net: Net, n: Node, id: nat) {
    && n in net.ends && id in net.ends[n].cb.stages && net.ends[n].cb.stages[id] == Cb.Recorded
    && id in net.ends[n].cb.table.callbacks
  }

  lemma ReadyHasRequest(service: Service, net: Net, n: Node, id: nat)
    requires Inv(service, net) && ReadyToSend(net, n, id)
    ensures id in net.ends[n].cb.sessions && id in net.ends[n].args
    ensures net.sent !in net.packets && net.sent + 1 !in net.packets
    ensures net.sent !in net.held && net.sent + 1 !in net.held
  {
    hide EndpointOk, PacketsOk, Cb.EachOnce;
    EndAt(service, net, n);
    IssuedHasRequest(service, n, net.ends[n], id);
    FramesOkNumbers(net);
  }

  /** The request goes out and is answered. */
  lemma CallbackServed(service: Service, net: Net, n: Node, id: nat, content: Content)
    requires ReadyToSend(net, n, id) && id in net.ends[n].cb.sessions && id in net.ends[n].args
    requires net.sent !in net.packets && net.sent !in net.held
    requires var dst := net.ends[n].cb.sessions[id]; dst in net.ends && service(dst, net.ends[n].args[id], content)
    ensures var e, k := net.ends[n], net.sent;
            && Enabled(service, net, CallbackSend(n, id, true))
            && Enabled(service, Next(service, net, CallbackSend(n, id, true)), HandleRequest(k, content, true))
            && Next(service, Next(service, net, CallbackSend(n, id, true)), HandleRequest(k, content, true))
               == Net(net.ends[n := e.(cb := e.cb.(stages := e.cb.stages[id := Cb.Finished]))],
                      net.packets[k + 1 := Packet(e.cb.sessions[id], n, false, Callback, id, content)],
                      net.held, k + 2, net.broken)
  {
    var k := net.sent;
    var sent := Next(service, net, CallbackSend(n, id, true));
    assert sent.packets - {k} == net.packets && sent.held - {k} == net.held;
  }

  /** Handling the reply runs the callback with it. */
  lemma ReplyRuns(service: Service, net: Net, n: Node, id: nat, k: nat)
    requires n in net.ends && Cb.Reachable(net.ends[n].cb) && id in net.ends[n].cb.table.callbacks
    requires id in net.ends[n].cb.stages && net.ends[n].cb.stages[id] == Cb.Finished && id in net.ends[n].cb.sessions
    requires k in net.packets && k !in net.held
    requires var p := net.packets[k]; !p.request && p.dst == n && p.model == Callback && p.id == id
    ensures Enabled(service, net, HandleReply(k))
    ensures var next, p := Next(service, net, HandleReply(k)), net.packets[k];
            var s := net.ends[n].cb;
            && n in next.ends
            && next == net.(packets := net.packets - {k}, ends := net.ends[n := net.ends[n].(cb := next.ends[n].cb)])
            && next.ends[n].cb == s.(table := next.ends[n].cb.table)
            && next.ends[n].cb.table.runs == s.table.runs + [Cb.Run(id, s.sessions[id], Ok, Some(p))]
            && next.ends[n].cb.table.callbacks == s.table.callbacks - {id}
  {
    hide Cb.Reachable, Cb.Complete;
    var s, p := net.ends[n].cb, net.packets[k];
    Cb.StepRuns(s, Cb.Reply(id, p));
    assert net.held - {k} == net.held;
  }

  /**
   From every reachable state, a callback request that is ready to be sent, and whose request
   and reply are not lost, runs its callback once, with status ok, the session it was sent
   over and the very content the service answered with; nothing else runs or is left over.
   */
  lemma CallbackDelivered(service: Service, net: Net, n: Node, id: nat, content: Content)
    requires Reachable(service, net) && ReadyToSend(net, n, id)
    requires id in net.ends[n].cb.sessions && id in net.ends[n].args ==>
               var dst := net.ends[n].cb.sessions[id]; dst in net.ends && service(dst, net.ends[n].args[id], content)
    ensures id in net.ends[n].cb.sessions
    ensures var e, k := net.ends[n], net.sent;
            var dst := e.cb.sessions[id];
            var reply := Packet(dst, n, false, Callback, id, content);
            var end := Execute(service, net, [CallbackSend(n, id, true), HandleRequest(k, content, true),
                                              HandleReply(k + 1)]);
            && end.Some? && n in end.value.ends
            && var f := end.value.ends[n];
            && end.value == net.(ends := net.ends[n := e.(cb := f.cb)], sent := k + 2)
            && f.cb.table.runs == e.cb.table.runs + [Cb.Run(id, dst, Ok, Some(reply))]
            && f.cb.table.callbacks == e.cb.table.callbacks - {id}
  {
    hide Reachable, Inv, Enabled, Next, Execute, Cb.Reachable;
    ReachableInOrder(service, net);
    ReadyHasRequest(service, net, n, id);
    var k := net.sent;
    CallbackServed(service, net, n, id, content);
    var n1 := Next(service, net, CallbackSend(n, id, true));
    var n2 := Next(service, n1, HandleRequest(k, content, true));
    ReachableNext(service, net, CallbackSend(n, id, true));
    ReachableNext(service, n1, HandleRequest(k, content, true));
    TableReachable(service, n2, n);
    ReplyRuns(service, n2, n, id, k + 1);
    var n3 := Next(service, n2, HandleReply(k + 1));
    assert n2.packets - {k + 1} == net.packets;
    var p2 := [HandleReply(k + 1)] + [];
    var p1 := [HandleRequest(k, content, true)] + p2;
    ExecuteNone(service, n3);
    ExecuteCons(service, n2, HandleReply(k + 1), []);
    ExecuteCons(service, n1, HandleRequest(k, content, true), p2);
    ExecuteCons(service, net, CallbackSend(n, id, true), p1);
    assert [CallbackSend(n, id, true)] + p1
        == [CallbackSend(n, id, true), HandleRequest(k, content, true), HandleReply(k + 1)];
  }

  /** A new callback request gets the next number of its table, which is another than that of the promises. */
  lemma CallbackCallStarts(service: Service, net: Net, n: Node, r: Request)
    requires Reachable(service, net) && n in net.ends
    ensures var e, id := net.ends[n], net.ends[n].cb.table.curReqId + 1;
            && id !in e.cb.stages && Enabled(service, net, CallbackCall(n, r))
            && Next(service, net, CallbackCall(n, r)) == net.(ends := net.ends[n := e.(
                 args := e.args[id := r.args],
                 cb := e.cb.(table := e.cb.table.(curReqId := id, callbacks := e.cb.table.callbacks + {id}),
                             stages := e.cb.stages[id := Cb.Inserted], sessions := e.cb.sessions[id := r.dst]))])
  {
    hide Reachable, CallsOk, PacketsOk, FramesOk, RunsOk, Cb.EachOnce;
    ReachableInOrder(service, net);
    EndAt(service, net, n);
  }

  // ------------------------------------------------------------- replies nobody waits for

  /** A reply to a request that is already completed is dropped: no endpoint notices its content. */
  lemma LateReplyDropped(service: Service, net: Net, k: nat)
    requires Enabled(service, net, HandleReply(k))
    requires var p, e := net.packets[k], net.ends[net.packets[k].dst];
             if p.model == Callback then p.id !in e.cb.table.callbacks && p.id !in e.cb.table.overtime
             else p.id !in e.sync.registered
    ensures Next(service, net, HandleReply(k)) == net.(packets := net.packets - {k})
  {
    assert net.held - {k} == net.held;
    var p := net.packets[k];
    assert net.ends[p.dst := net.ends[p.dst]] == net.ends;
  }
}
