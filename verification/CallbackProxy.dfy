/**
 The table of pending callbacks of one endpoint. A request registers its callback, arms
 a timer outside the lock, records the timer under the lock, and sends; replies, timeouts
 and send failures may come in between any two of these steps.
 */
module CallbackProxy {
  import opened RpcTypes
  import opened Wrappers

  type Session = nat

  /** What `remove_timer` returns when no timer is recorded. */
  const NO_SESSION: Session := 0

  datatype Timer = Timer(session: Session, timerId: nat)

  /** A callback that was run: for which request, with which session, status and reply. */
  datatype Run<+M> = Run(id: nat, session: Session, status: MsgStatus, msg: Option<M>)

  /**
   The table: request numbers handed out so far, callbacks still registered, recorded
   timers, and the timers the timer manager holds. `runs` is the history of callbacks run.
   */
  datatype Table<+M> = Table(curReqId: nat, callbacks: set<nat>, overtime: map<nat, Timer>,
                             armed: map<nat, nat>, lastTimer: nat, runs: seq<Run<M>>)

  function Initial<M>(): Table<M> {
    Table(0, {}, map[], map[], 0, [])
  }

  // ------------------------------------------------------------- atomic steps

  /** `insert`: the next number, and the callback under it. */
  function Insert<M>(t: Table<M>): Table<M> {
    t.(curReqId := t.curReqId + 1, callbacks := t.callbacks + {t.curReqId + 1})
  }

  /** First half of `insert_timer`, outside the lock: the manager arms a timer for the request. */
  function Arm<M>(t: Table<M>, id: nat): Table<M> {
    t.(lastTimer := t.lastTimer + 1, armed := t.armed[t.lastTimer + 1 := id])
  }

  /** Second half of `insert_timer`, under the lock: an existing record is not replaced. */
  function Record<M>(t: Table<M>, id: nat, session: Session, timerId: nat): Table<M> {
    if id in t.overtime then t else t.(overtime := t.overtime[id := Timer(session, timerId)])
  }

  function RemoveTimer<M>(t: Table<M>, id: nat): Table<M> {
    if id in t.overtime then t.(armed := t.armed - {t.overtime[id].timerId}, overtime := t.overtime - {id}) else t
  }

  function SessionOf<M>(t: Table<M>, id: nat): Session {
    if id in t.overtime then t.overtime[id].session else NO_SESSION
  }

  /** `invoke` and `remove`: drop the timer, then run and drop the callback if it is still there. */
  function Complete<M>(t: Table<M>, id: nat, status: MsgStatus, msg: Option<M>): Table<M> {
    var u := RemoveTimer(t, id);
    if id in t.callbacks
    then u.(callbacks := t.callbacks - {id}, runs := t.runs + [Run(id, SessionOf(t, id), status, msg)])
    else u
  }

  /** The manager takes a timer out to run it; from then on erasing it does not stop it. */
  function Fire<M>(t: Table<M>, timerId: nat): Table<M> {
    t.(armed := t.armed - {timerId})
  }

  // ------------------------------------------------------------- the class

  class Proxy<M> {
    var curReqId: nat
    var callbackMap: set<nat>
    var overtimeReqs: map<nat, Timer>
    var armedTimers: map<nat, nat>
    var lastTimer: nat
    ghost var runs: seq<Run<M>>

    ghost function View(): Table<M>
      reads this
    {
      Table(curReqId, callbackMap, overtimeReqs, armedTimers, lastTimer, runs)
    }

    constructor ()
      ensures View() == Initial()
    {
      curReqId, callbackMap, overtimeReqs, armedTimers, lastTimer := 0, {}, map[], map[], 0;
      runs := [];
    }

    method InsertCallback() returns (id: nat)
      modifies this
      ensures View() == Insert(old(View())) && id == curReqId
    {
      curReqId := curReqId + 1;
      callbackMap := callbackMap + {curReqId};
      id := curReqId;
    }

    method ArmTimer(id: nat) returns (timerId: nat)
      modifies this
      ensures View() == Arm(old(View()), id) && timerId == lastTimer
    {
      lastTimer := lastTimer + 1;
      armedTimers := armedTimers[lastTimer := id];
      timerId := lastTimer;
    }

    method RecordTimer(id: nat, session: Session, timerId: nat)
      modifies this
      ensures View() == Record(old(View()), id, session, timerId)
      ensures overtimeReqs == map[id := Timer(session, timerId)] + old(overtimeReqs)
    {
      if id !in overtimeReqs {
        overtimeReqs := overtimeReqs[id := Timer(session, timerId)];
      }
    }

    method TakeTimer(id: nat) returns (session: Session)
      modifies this
      ensures View() == RemoveTimer(old(View()), id)
      ensures session == SessionOf(old(View()), id)
    {
      session := NO_SESSION;
      if id in overtimeReqs {
        var timer := overtimeReqs[id];
        session := timer.session;
        armedTimers := armedTimers - {timer.timerId};
        overtimeReqs := overtimeReqs - {id};
      }
    }

    /** A reply has come; the callback gets it with status ok, and the session if the timer is recorded. */
    method Invoke(id: nat, msg: M)
      modifies this
      ensures View() == Complete(old(View()), id, Ok, Some(msg))
      ensures id !in old(callbackMap) ==> runs == old(runs)
      ensures id in old(callbackMap) ==>
                runs == old(runs)
                  + [Run(id, if id in old(overtimeReqs) then old(overtimeReqs)[id].session else 0, Ok, Some(msg))]
      ensures callbackMap == old(callbackMap) - {id} && overtimeReqs == old(overtimeReqs) - {id}
    {
      var session := TakeTimer(id);
      if id !in callbackMap {
        return;
      }
      runs := runs + [Run(id, session, Ok, Some(msg))];
      callbackMap := callbackMap - {id};
    }

    /** A timeout or a failed send; the callback gets the status and no reply. */
    method Remove(id: nat, status: MsgStatus)
      modifies this
      ensures View() == Complete(old(View()), id, status, None)
      ensures id !in old(callbackMap) ==> runs == old(runs)
      ensures id in old(callbackMap) ==>
                runs == old(runs)
                  + [Run(id, if id in old(overtimeReqs) then old(overtimeReqs)[id].session else 0, status, None)]
      ensures callbackMap == old(callbackMap) - {id} && overtimeReqs == old(overtimeReqs) - {id}
    {
      var session := TakeTimer(id);
      if id !in callbackMap {
        return;
      }
      runs := runs + [Run(id, session, status, None)];
      callbackMap := callbackMap - {id};
    }
  }

  // ------------------------------------------------------------- interleavings

  /** How far the calling thread of a request has come. */
  datatype Stage = Inserted | Armed(timerId: nat) | Recorded | SendFailed | Finished

  /**
   The table, the calling threads with the session each request is for, and the timeouts
   that were taken out of the manager but have not run yet.
   */
  datatype State<+M> = State(table: Table<M>, stages: map<nat, Stage>, sessions: map<nat, Session>,
                             fired: map<nat, nat>)

  /** A step of one of the threads. */
  datatype Step<+M> =
    | CallInsert(session: Session)
    | CallArm(id: nat)
    | CallRecord(id: nat)
    | CallSend(id: nat, sent: bool)
    | CallGiveUp(id: nat)
    | Reply(id: nat, msg: M)
    | TimerFires(timerId: nat)
    | TimeoutRuns(timerId: nat)

  predicate Enabled<M>(s: State<M>, step: Step<M>) {
    match step
    case CallInsert(_) => true
    case CallArm(id) => id in s.stages && s.stages[id] == Inserted
    case CallRecord(id) => id in s.stages && s.stages[id].Armed? && id in s.sessions
    case CallSend(id, _) => id in s.stages && s.stages[id] == Recorded
    case CallGiveUp(id) => id in s.stages && s.stages[id] == SendFailed
    case Reply(_, _) => true
    case TimerFires(timerId) => timerId in s.table.armed
    case TimeoutRuns(timerId) => timerId in s.fired
  }

  /** A reply may name any number: pending, finished, or never issued. */
  function Next<M>(s: State<M>, step: Step<M>): State<M>
    requires Enabled(s, step)
  {
    match step
    case CallInsert(session) =>
      var t := Insert(s.table);
      s.(table := t, stages := s.stages[t.curReqId := Inserted], sessions := s.sessions[t.curReqId := session])
    case CallArm(id) => var t := Arm(s.table, id); s.(table := t, stages := s.stages[id := Armed(t.lastTimer)])
    case CallRecord(id) =>
      s.(table := Record(s.table, id, s.sessions[id], s.stages[id].timerId), stages := s.stages[id := Recorded])
    case CallSend(id, sent) => s.(stages := s.stages[id := if sent then Finished else SendFailed])
    case CallGiveUp(id) => s.(table := Complete(s.table, id, SendError, None), stages := s.stages[id := Finished])
    case Reply(id, msg) => s.(table := Complete(s.table, id, Ok, Some(msg)))
    case TimerFires(timerId) =>
      s.(table := Fire(s.table, timerId), fired := s.fired[timerId := s.table.armed[timerId]])
    case TimeoutRuns(timerId) =>
      s.(table := Complete(s.table, s.fired[timerId], Timeout, None), fired := s.fired - {timerId})
  }

  function Start<M>(): State<M> {
    State(Initial(), map[], map[], map[])
  }

  /** The state after a sequence of steps, if each is possible when its turn comes. */
  function Execute<M>(s: State<M>, steps: seq<Step<M>>): Option<State<M>>
    decreases |steps|
  {
    if steps == [] then Some(s)
    else if Enabled(s, steps[0]) then Execute(Next(s, steps[0]), steps[1..])
    else None
  }

  /** How often the callback of a request has run. */
  function RunCount<M>(runs: seq<Run<M>>, id: nat): nat {
    if runs == [] then 0 else RunCount(runs[..|runs| - 1], id) + if runs[|runs| - 1].id == id then 1 else 0
  }

  /** Every number handed out is either still registered or its callback ran, once; nothing else ran. */
  ghost predicate EachOnce<M>(t: Table<M>) {
    forall id: nat ::
      RunCount(t.runs, id) == (if 1 <= id <= t.curReqId && id !in t.callbacks then 1 else 0)
      && (id in t.callbacks ==> 1 <= id <= t.curReqId)
  }

  lemma RunCountSnoc<M>(runs: seq<Run<M>>, r: Run<M>, id: nat)
    ensures RunCount(runs + [r], id) == RunCount(runs, id) + if r.id == id then 1 else 0
  {
    assert (runs + [r])[..|runs|] == runs;
  }

  lemma CompleteKeepsOnce<M>(t: Table<M>, id: nat, status: MsgStatus, msg: Option<M>)
    requires EachOnce(t)
    ensures EachOnce(Complete(t, id, status, msg))
  {
    var r := Run(id, SessionOf(t, id), status, msg);
    forall i: nat ensures RunCount(t.runs + [r], i) == RunCount(t.runs, i) + if r.id == i then 1 else 0 {
      RunCountSnoc(t.runs, r, i);
    }
  }

  lemma StepKeepsOnce<M>(s: State<M>, step: Step<M>)
    requires Enabled(s, step) && EachOnce(s.table)
    ensures EachOnce(Next(s, step).table)
  {
    match step
    case CallGiveUp(id) => CompleteKeepsOnce(s.table, id, SendError, None);
    case Reply(id, msg) => CompleteKeepsOnce(s.table, id, Ok, Some(msg));
    case TimeoutRuns(timerId) => CompleteKeepsOnce(s.table, s.fired[timerId], Timeout, None);
    case _ =>
  }

  /**
   Under every interleaving of registering, arming, recording, sending, replies (also
   unknown and repeated ones), timeouts and failed sends, each callback runs at most once,
   and the numbers handed out are those still registered and those that ran exactly once.
   */
  lemma {:induction false} CallbacksRunOnce<M>(s: State<M>, steps: seq<Step<M>>)
    requires EachOnce(s.table) && Execute(s, steps).Some?
    ensures EachOnce(Execute(s, steps).value.table)
    decreases |steps|
  {
    if steps != [] {
      StepKeepsOnce(s, steps[0]);
      CallbacksRunOnce(Next(s, steps[0]), steps[1..]);
    }
  }

  lemma StartRunsOnce<M>(steps: seq<Step<M>>)
    requires Execute(Start<M>(), steps).Some?
    ensures EachOnce(Execute(Start<M>(), steps).value.table)
  {
    CallbacksRunOnce(Start<M>(), steps);
  }

  // ------------------------------------------------------------- no callback is lost

  /** A timer that will run the timeout of a request: still armed, or taken out to be run. */
  predicate HasTimer(armed: map<nat, nat>, fired: map<nat, nat>, id: nat) {
    (exists k :: k in armed && armed[k] == id) || (exists k :: k in fired && fired[k] == id)
  }

  /** A number held for a request was handed out by the manager; if its timer is armed, it is the request's. */
  predicate OwnTimer<M>(t: Table<M>, timerId: nat, id: nat) {
    timerId <= t.lastTimer && (timerId in t.armed ==> t.armed[timerId] == id)
  }

  ghost predicate NumbersOk<M>(s: State<M>) {
    && (forall k :: k in s.table.armed ==> k <= s.table.lastTimer)
    && (forall k :: k in s.fired ==> k <= s.table.lastTimer && k !in s.table.armed)
    && (forall id :: id in s.table.overtime ==> OwnTimer(s.table, s.table.overtime[id].timerId, id))
    && (forall id :: id in s.stages && s.stages[id].Armed? ==> OwnTimer(s.table, s.stages[id].timerId, id))
  }

  ghost predicate Covered<M>(s: State<M>) {
    && (forall id :: id in s.table.callbacks ==> id in s.stages)
    && (forall id :: id in s.stages ==> id <= s.table.curReqId)
    && (forall id :: id in s.table.callbacks && s.stages[id] != Inserted ==> HasTimer(s.table.armed, s.fired, id))
  }

  /** Every registered callback whose request has armed its timer has one that will run it. */
  ghost predicate NoneLost<M>(s: State<M>) {
    NumbersOk(s) && Covered(s)
  }

  /** Completing a request takes at most its own timer out of the manager. */
  lemma CompleteKeepsOthers<M>(s: State<M>, id: nat, status: MsgStatus, msg: Option<M>)
    requires NumbersOk(s)
    ensures var t := Complete(s.table, id, status, msg);
            && t.callbacks == s.table.callbacks - {id}
            && t.curReqId == s.table.curReqId && t.lastTimer == s.table.lastTimer
            && t.armed.Keys <= s.table.armed.Keys && t.overtime.Keys <= s.table.overtime.Keys
            && (forall k :: k in t.armed ==> t.armed[k] == s.table.armed[k])
            && (forall k :: k in s.table.armed && s.table.armed[k] != id ==> k in t.armed)
            && (forall i :: i in t.overtime ==> t.overtime[i] == s.table.overtime[i])
  {
  }

  lemma CompleteLosesNone<M>(s: State<M>, id: nat, status: MsgStatus, msg: Option<M>)
    requires NoneLost(s)
    ensures NoneLost(s.(table := Complete(s.table, id, status, msg)))
  {
    hide Complete, HasTimer;
    CompleteKeepsOthers(s, id, status, msg);
    var t := Complete(s.table, id, status, msg);
    forall i | i in t.callbacks && s.stages[i] != Inserted ensures HasTimer(t.armed, s.fired, i) {
      TimerKept(s.table.armed, s.fired, t.armed, s.fired, i);
    }
  }

  /** A timer stays with its request when others come, go, or are taken out to be run. */
  lemma TimerKept(armed: map<nat, nat>, fired: map<nat, nat>, armed': map<nat, nat>, fired': map<nat, nat>, id: nat)
    requires HasTimer(armed, fired, id)
    requires forall k :: k in armed && armed[k] == id ==>
               (k in armed' && armed'[k] == id) || (k in fired' && fired'[k] == id)
    requires forall k :: k in fired && fired[k] == id ==> k in fired' && fired'[k] == id
    ensures HasTimer(armed', fired', id)
  {
    if exists k :: k in armed && armed[k] == id {
      var k :| k in armed && armed[k] == id;
      assert (k in armed' && armed'[k] == id) || (k in fired' && fired'[k] == id);
    } else {
      var k :| k in fired && fired[k] == id;
      assert k in fired' && fired'[k] == id;
    }
  }

  lemma InsertLosesNone<M>(s: State<M>, session: Session)
    requires NoneLost(s)
    ensures NoneLost(Next(s, CallInsert(session)))
  {
    hide HasTimer;
  }

  lemma ArmLosesNone<M>(s: State<M>, id: nat)
    requires NoneLost(s) && Enabled(s, CallArm(id))
    ensures NoneLost(Next(s, CallArm(id)))
  {
    hide HasTimer;
    var n := Next(s, CallArm(id));
    assert n.table.armed[n.table.lastTimer] == id;
    forall i | i in n.table.callbacks && n.stages[i] != Inserted ensures HasTimer(n.table.armed, n.fired, i) {
      if i == id {
        ArmedHasTimer(n.table.armed, n.fired, n.table.lastTimer);
      } else {
        TimerKept(s.table.armed, s.fired, n.table.armed, n.fired, i);
      }
    }
  }

  lemma ArmedHasTimer(armed: map<nat, nat>, fired: map<nat, nat>, k: nat)
    requires k in armed
    ensures HasTimer(armed, fired, armed[k])
  {
  }

  /** The steps of the calling thread that touch no timer of the manager. */
  lemma CallerLosesNone<M>(s: State<M>, step: Step<M>)
    requires NoneLost(s) && Enabled(s, step) && (step.CallRecord? || step.CallSend?)
    ensures NoneLost(Next(s, step))
  {
    hide HasTimer;
  }

  lemma GiveUpLosesNone<M>(s: State<M>, id: nat)
    requires NoneLost(s) && Enabled(s, CallGiveUp(id))
    ensures NoneLost(Next(s, CallGiveUp(id)))
  {
    hide HasTimer, Complete;
    CompleteLosesNone(s, id, SendError, None);
    CompleteKeepsOthers(s, id, SendError, None);
  }

  lemma FireLosesNone<M>(s: State<M>, timerId: nat)
    requires NoneLost(s) && Enabled(s, TimerFires(timerId))
    ensures NoneLost(Next(s, TimerFires(timerId)))
  {
    hide HasTimer;
    var n := Next(s, TimerFires(timerId));
    forall i | i in n.table.callbacks && n.stages[i] != Inserted ensures HasTimer(n.table.armed, n.fired, i) {
      TimerKept(s.table.armed, s.fired, n.table.armed, n.fired, i);
    }
  }

  /** A timer taken out to be run only leaves when it has completed its request. */
  lemma TimeoutLosesNone<M>(s: State<M>, timerId: nat)
    requires NoneLost(s) && Enabled(s, TimeoutRuns(timerId))
    ensures NoneLost(Next(s, TimeoutRuns(timerId)))
  {
    hide HasTimer, Complete;
    var id := s.fired[timerId];
    var t := Complete(s.table, id, Timeout, None);
    CompleteLosesNone(s, id, Timeout, None);
    CompleteKeepsOthers(s, id, Timeout, None);
    forall i | i in t.callbacks && s.stages[i] != Inserted ensures HasTimer(t.armed, s.fired - {timerId}, i) {
      TimerKept(t.armed, s.fired, t.armed, s.fired - {timerId}, i);
    }
  }

  lemma StepLosesNone<M>(s: State<M>, step: Step<M>)
    requires NoneLost(s) && Enabled(s, step)
    ensures NoneLost(Next(s, step))
  {
    hide NoneLost, Complete, Insert, Arm, Record, Fire;
    match step
    case CallInsert(session) => InsertLosesNone(s, session);
    case CallArm(id) => ArmLosesNone(s, id);
    case CallGiveUp(id) => GiveUpLosesNone(s, id);
    case Reply(id, msg) => CompleteLosesNone(s, id, Ok, Some(msg));
    case TimerFires(timerId) => FireLosesNone(s, timerId);
    case TimeoutRuns(timerId) => TimeoutLosesNone(s, timerId);
    case _ => CallerLosesNone(s, step);
  }

  lemma {:induction false} RunsLoseNone<M>(s: State<M>, steps: seq<Step<M>>)
    requires NoneLost(s) && Execute(s, steps).Some?
    ensures NoneLost(Execute(s, steps).value)
    decreases |steps|
  {
    hide NoneLost, Enabled, Next;
    if steps != [] {
      StepLosesNone(s, steps[0]);
      RunsLoseNone(Next(s, steps[0]), steps[1..]);
    }
  }

  /**
   No callback is lost: once every caller has armed its timer and the manager has no timer
   left, neither armed nor to be run, every callback handed a number has run exactly once.
   */
  lemma EveryCallbackRuns<M>(steps: seq<Step<M>>)
    requires Execute(Start<M>(), steps).Some?
    requires var s := Execute(Start<M>(), steps).value;
             s.table.armed == map[] && s.fired == map[] && forall id :: id in s.stages ==> s.stages[id] != Inserted
    ensures var t := Execute(Start<M>(), steps).value.table;
            t.callbacks == {} && forall id | 1 <= id <= t.curReqId :: RunCount(t.runs, id) == 1
  {
    hide Execute, RunCount;
    RunsLoseNone(Start<M>(), steps);
    StartRunsOnce<M>(steps);
    var s := Execute(Start<M>(), steps).value;
    NobodyWaits(s);
  }

  lemma NobodyWaits<M>(s: State<M>)
    requires NoneLost(s) && s.table.armed == map[] && s.fired == map[]
    requires forall id :: id in s.stages ==> s.stages[id] != Inserted
    ensures s.table.callbacks == {}
  {
    hide NumbersOk;
    assert forall id :: id !in s.table.callbacks;
  }

  // ------------------------------------------------------------- recorded timers

  /** The calling thread is past recording the timer. */
  predicate HasRecorded(stage: Stage) {
    stage == Recorded || stage == SendFailed || stage == Finished
  }

  /**
   What is known of the recorded timers: only issued requests have stages; while a callback
   is registered, its timer is recorded exactly when its caller has done so, and then with
   the session of the request.
   */
  ghost predicate RecordsMatch<M>(s: State<M>) {
    TimersMatch(s.table, s.stages, s.sessions)
  }

  ghost predicate TimersMatch<M>(t: Table<M>, stages: map<nat, Stage>, sessions: map<nat, Session>) {
    && (forall id :: id in stages <==> 1 <= id <= t.curReqId)
    && stages.Keys == sessions.Keys
    && t.callbacks <= stages.Keys
    && (forall id :: id in t.overtime ==> id in stages && HasRecorded(stages[id]))
    && (forall id :: id in t.callbacks && HasRecorded(stages[id]) ==> id in t.overtime)
    && (forall id :: id in t.overtime ==> t.overtime[id].session == sessions[id])
  }

  lemma CompleteKeepsTimers<M>(t: Table<M>, stages: map<nat, Stage>, sessions: map<nat, Session>,
                               id: nat, status: MsgStatus, msg: Option<M>)
    requires TimersMatch(t, stages, sessions)
    ensures TimersMatch(Complete(t, id, status, msg), stages, sessions)
  {
  }

  lemma StageKeepsTimers<M>(t: Table<M>, stages: map<nat, Stage>, sessions: map<nat, Session>, id: nat, stage: Stage)
    requires TimersMatch(t, stages, sessions) && id in stages && HasRecorded(stage) == HasRecorded(stages[id])
    ensures TimersMatch(t, stages[id := stage], sessions)
  {
  }

  lemma InsertKeepsTimers<M>(t: Table<M>, stages: map<nat, Stage>, sessions: map<nat, Session>, session: Session)
    requires TimersMatch(t, stages, sessions)
    ensures TimersMatch(Insert(t), stages[t.curReqId + 1 := Inserted], sessions[t.curReqId + 1 := session])
  {
  }

  lemma RecordKeepsTimers<M>(t: Table<M>, stages: map<nat, Stage>, sessions: map<nat, Session>, id: nat, timerId: nat)
    requires TimersMatch(t, stages, sessions) && id in stages && !HasRecorded(stages[id])
    ensures TimersMatch(Record(t, id, sessions[id], timerId), stages[id := Recorded], sessions)
  {
  }

  lemma StepKeepsRecords<M>(s: State<M>, step: Step<M>)
    requires Enabled(s, step) && RecordsMatch(s)
    ensures RecordsMatch(Next(s, step))
  {
    hide Complete, Record, Insert, TimersMatch;
    ManagerKeepsTimers(s.table, s.stages, s.sessions, step);
    IssuedStages(s.table, s.stages, s.sessions);
    match step
    case CallInsert(session) => InsertKeepsTimers(s.table, s.stages, s.sessions, session); InsertCounts(s.table);
    case CallArm(id) => StageKeepsTimers(Arm(s.table, id), s.stages, s.sessions, id, Armed(s.table.lastTimer + 1));
    case CallRecord(id) => RecordKeepsTimers(s.table, s.stages, s.sessions, id, s.stages[id].timerId);
    case CallSend(id, sent) =>
      StageKeepsTimers(s.table, s.stages, s.sessions, id, if sent then Finished else SendFailed);
    case CallGiveUp(id) =>
      CompleteKeepsTimers(s.table, s.stages, s.sessions, id, SendError, None);
      StageKeepsTimers(Complete(s.table, id, SendError, None), s.stages, s.sessions, id, Finished);
    case Reply(id, msg) => CompleteKeepsTimers(s.table, s.stages, s.sessions, id, Ok, Some(msg));
    case TimerFires(timerId) =>
    case TimeoutRuns(timerId) => CompleteKeepsTimers(s.table, s.stages, s.sessions, s.fired[timerId], Timeout, None);
  }

  /** What the timer manager holds does not matter. */
  lemma ManagerKeepsTimers<M>(t: Table<M>, stages: map<nat, Stage>, sessions: map<nat, Session>, step: Step<M>)
    requires TimersMatch(t, stages, sessions)
    ensures step.CallArm? ==> TimersMatch(Arm(t, step.id), stages, sessions)
    ensures step.TimerFires? ==> TimersMatch(Fire(t, step.timerId), stages, sessions)
  {
  }

  lemma IssuedStages<M>(t: Table<M>, stages: map<nat, Stage>, sessions: map<nat, Session>)
    requires TimersMatch(t, stages, sessions)
    ensures stages.Keys == sessions.Keys
  {
  }

  lemma InsertCounts<M>(t: Table<M>)
    ensures Insert(t).curReqId == t.curReqId + 1
  {
  }

  lemma {:induction false} RecordsAlwaysMatch<M>(s: State<M>, steps: seq<Step<M>>)
    requires RecordsMatch(s) && Execute(s, steps).Some?
    ensures RecordsMatch(Execute(s, steps).value)
    decreases |steps|
  {
    if steps != [] {
      StepKeepsRecords(s, steps[0]);
      RecordsAlwaysMatch(Next(s, steps[0]), steps[1..]);
    }
  }

  /**
   In every reachable state, the session a registered callback would be run with is the
   session of its request exactly if its caller has recorded the timer, or the session is 0.
   */
  lemma SessionPassedOn<M>(steps: seq<Step<M>>, id: nat)
    requires Execute(Start<M>(), steps).Some?
    ensures var s := Execute(Start<M>(), steps).value;
            id in s.table.callbacks ==>
              id in s.stages && id in s.sessions
              && (SessionOf(s.table, id) == s.sessions[id]
                  <==> HasRecorded(s.stages[id]) || s.sessions[id] == NO_SESSION)
  {
    RecordsAlwaysMatch(Start<M>(), steps);
  }

  // ------------------------------------------------------------- what a callback is given

  ghost predicate Reachable<M(!new)>(s: State<M>) {
    exists steps :: Execute(Start<M>(), steps) == Some(s)
  }

  lemma ReachableInOrder<M(!new)>(s: State<M>)
    requires Reachable(s)
    ensures EachOnce(s.table) && NoneLost(s) && RecordsMatch(s)
  {
    hide Execute, EachOnce, NoneLost, RecordsMatch;
    var steps :| Execute(Start<M>(), steps) == Some(s);
    StartInOrder<M>();
    CallbacksRunOnce(Start<M>(), steps);
    RunsLoseNone(Start<M>(), steps);
    RecordsAlwaysMatch(Start<M>(), steps);
  }

  lemma StartInOrder<M>()
    ensures EachOnce(Start<M>().table) && NoneLost(Start<M>()) && RecordsMatch(Start<M>())
  {
  }

  /** The session a registered callback is due: that of its request once the timer is recorded. */
  function SessionDue<M>(s: State<M>, id: nat): Session
    requires id in s.stages && id in s.sessions
  {
    if HasRecorded(s.stages[id]) then s.sessions[id] else 0
  }

  lemma DueSession<M>(s: State<M>, id: nat)
    requires RecordsMatch(s) && id in s.table.callbacks
    ensures id in s.stages && id in s.sessions && SessionOf(s.table, id) == SessionDue(s, id)
  {
  }

  /**
   Every step of every run, and the callbacks it runs: a reply runs the callback registered
   under its number with status ok and that reply, a timeout and a failed send run it with
   their status and no reply; no other step runs any.
   */
  lemma StepRuns<M(!new)>(s: State<M>, step: Step<M>)
    requires Reachable(s) && Enabled(s, step)
    ensures forall id :: id in s.table.callbacks ==> id in s.stages && id in s.sessions
    ensures var t := Next(s, step).table;
            match step
            case Reply(id, msg) =>
              if id !in s.table.callbacks then t.runs == s.table.runs && t.callbacks == s.table.callbacks
              else t.runs == s.table.runs + [Run(id, SessionDue(s, id), Ok, Some(msg))]
                   && t.callbacks == s.table.callbacks - {id}
            case TimeoutRuns(k) =>
              if s.fired[k] !in s.table.callbacks then t.runs == s.table.runs && t.callbacks == s.table.callbacks
              else t.runs == s.table.runs + [Run(s.fired[k], SessionDue(s, s.fired[k]), Timeout, None)]
                   && t.callbacks == s.table.callbacks - {s.fired[k]}
            case CallGiveUp(id) =>
              if id !in s.table.callbacks then t.runs == s.table.runs && t.callbacks == s.table.callbacks
              else t.runs == s.table.runs + [Run(id, SessionDue(s, id), SendError, None)]
                   && t.callbacks == s.table.callbacks - {id}
            case CallInsert(_) =>
              t.runs == s.table.runs && t.callbacks == s.table.callbacks + {s.table.curReqId + 1}
            case _ => t.runs == s.table.runs && t.callbacks == s.table.callbacks
  {
    hide Reachable, EachOnce, NoneLost, RecordsMatch, SessionDue;
    ReachableInOrder(s);
    forall id | id in s.table.callbacks
      ensures id in s.stages && id in s.sessions && SessionOf(s.table, id) == SessionDue(s, id)
    {
      DueSession(s, id);
    }
  }

  /** The four steps of the calling thread, from any reachable state. */
  lemma CallSent<M(!new)>(s: State<M>, session: Session, sent: bool)
    requires Reachable(s)
    ensures var id, k := s.table.curReqId + 1, s.table.lastTimer + 1;
            && id !in s.table.callbacks && id !in s.table.overtime && k !in s.table.armed && k !in s.fired
            && Execute(s, [CallInsert(session), CallArm(id), CallRecord(id), CallSend(id, sent)])
               == Some(State(Table(id, s.table.callbacks + {id}, s.table.overtime[id := Timer(session, k)],
                                   s.table.armed[k := id], k, s.table.runs),
                             s.stages[id := if sent then Finished else SendFailed], s.sessions[id := session], s.fired))
  {
    hide Reachable, EachOnce, NoneLost, RecordsMatch, Execute, Next, Enabled;
    ReachableInOrder(s);
    NextNumbersFree(s);
    var id := s.table.curReqId + 1;
    CallerSteps(s, session, sent);
    var s1 := Next(s, CallInsert(session));
    var s2 := Next(s1, CallArm(id));
    var s3 := Next(s2, CallRecord(id));
    var p3: seq<Step<M>> := [CallSend(id, sent)];
    var p2: seq<Step<M>> := [CallRecord(id)] + p3;
    var p1: seq<Step<M>> := [CallArm(id)] + p2;
    ExecuteOne(s3, CallSend(id, sent));
    ExecuteCons(s2, CallRecord(id), p3);
    ExecuteCons(s1, CallArm(id), p2);
    ExecuteCons(s, CallInsert(session), p1);
    assert [CallInsert(session)] + p1 == [CallInsert(session), CallArm(id), CallRecord(id), CallSend(id, sent)];
  }

  lemma CallerSteps<M>(s: State<M>, session: Session, sent: bool)
    requires s.table.curReqId + 1 !in s.table.overtime
    ensures var id, k := s.table.curReqId + 1, s.table.lastTimer + 1;
            Enabled(s, CallInsert(session)) && (
            var s1 := Next(s, CallInsert(session));
            Enabled(s1, CallArm(id)) && (
            var s2 := Next(s1, CallArm(id));
            Enabled(s2, CallRecord(id)) && (
            var s3 := Next(s2, CallRecord(id));
            Enabled(s3, CallSend(id, sent))
            && Next(s3, CallSend(id, sent))
               == State(Table(id, s.table.callbacks + {id}, s.table.overtime[id := Timer(session, k)],
                              s.table.armed[k := id], k, s.table.runs),
                        s.stages[id := if sent then Finished else SendFailed], s.sessions[id := session], s.fired))))
  {
    var id := s.table.curReqId + 1;
    var s3 := Next(Next(Next(s, CallInsert(session)), CallArm(id)), CallRecord(id));
    assert s3.stages[id := Finished] == s.stages[id := Finished];
    assert s3.stages[id := SendFailed] == s.stages[id := SendFailed];
  }

  /** The next numbers are not in use. */
  lemma NextNumbersFree<M>(s: State<M>)
    requires NoneLost(s) && RecordsMatch(s)
    ensures var id, k := s.table.curReqId + 1, s.table.lastTimer + 1;
            id !in s.table.callbacks && id !in s.table.overtime && k !in s.table.armed && k !in s.fired
  {
  }

  lemma {:induction false} ExecuteAppend<M>(s: State<M>, a: seq<Step<M>>, b: seq<Step<M>>)
    requires Execute(s, a).Some?
    ensures Execute(s, a + b) == Execute(Execute(s, a).value, b)
    decreases |a|
  {
    hide Enabled, Next;
    if a == [] {
      assert a + b == b;
    } else {
      assert (a + b)[1..] == a[1..] + b;
      ExecuteAppend(Next(s, a[0]), a[1..], b);
    }
  }

  lemma ExecuteOne<M>(s: State<M>, step: Step<M>)
    requires Enabled(s, step)
    ensures Execute(s, [step]) == Some(Next(s, step))
  {
    hide Next;
    ExecuteCons(s, step, []);
    assert [step] + [] == [step];
  }

  /** What an undisturbed call leaves behind: its number, its stage, and one callback more that was run. */
  function AfterCall<M>(s: State<M>, session: Session, status: MsgStatus, msg: Option<M>): State<M> {
    var id := s.table.curReqId + 1;
    State(Table(id, s.table.callbacks, s.table.overtime, s.table.armed, s.table.lastTimer + 1,
                s.table.runs + [Run(id, session, status, msg)]),
          s.stages[id := Finished], s.sessions[id := session], s.fired)
  }

  /**
   From every reachable state, a call whose reply comes gets it, with the session of the call;
   its timer is disarmed and its record dropped, and nothing of any other call changes.
   */
  lemma CallAnswered<M(!new)>(s: State<M>, session: Session, msg: M)
    requires Reachable(s)
    ensures var id := s.table.curReqId + 1;
            Execute(s, [CallInsert(session), CallArm(id), CallRecord(id), CallSend(id, true), Reply(id, msg)])
              == Some(AfterCall(s, session, Ok, Some(msg)))
  {
    hide Reachable, Execute;
    CallSent(s, session, true);
    var id := s.table.curReqId + 1;
    var call := [CallInsert(session), CallArm(id), CallRecord(id), CallSend(id, true)];
    var t := Execute(s, call).value;
    ExecuteAppend(s, call, [Reply(id, msg)]);
    ExecuteOne(t, Reply(id, msg));
    assert Next(t, Reply(id, msg)) == AfterCall(s, session, Ok, Some(msg));
    assert call + [Reply(id, msg)]
        == [CallInsert(session), CallArm(id), CallRecord(id), CallSend(id, true), Reply(id, msg)];
  }

  /** A call without a reply is told of the timeout when its timer fires. */
  lemma CallTimesOut<M(!new)>(s: State<M>, session: Session)
    requires Reachable(s)
    ensures var id, k := s.table.curReqId + 1, s.table.lastTimer + 1;
            Execute(s, [CallInsert(session), CallArm(id), CallRecord(id), CallSend(id, true), TimerFires(k),
                        TimeoutRuns(k)])
              == Some(AfterCall(s, session, Timeout, None))
  {
    hide Reachable, Execute;
    CallSent(s, session, true);
    var id, k := s.table.curReqId + 1, s.table.lastTimer + 1;
    var call := [CallInsert(session), CallArm(id), CallRecord(id), CallSend(id, true)];
    var t := Execute(s, call).value;
    var u := Next(t, TimerFires(k));
    ExecuteAppend(s, call, [TimerFires(k), TimeoutRuns(k)]);
    var rest: seq<Step<M>> := [TimeoutRuns(k)];
    ExecuteCons(t, TimerFires(k), rest);
    ExecuteOne(u, TimeoutRuns(k));
    assert Next(u, TimeoutRuns(k)) == AfterCall(s, session, Timeout, None);
    assert [TimerFires(k)] + rest == [TimerFires(k), TimeoutRuns(k)];
    assert call + [TimerFires(k), TimeoutRuns(k)]
        == [CallInsert(session), CallArm(id), CallRecord(id), CallSend(id, true), TimerFires(k), TimeoutRuns(k)];
  }

  /** A call whose send fails is told so. */
  lemma CallNotSent<M(!new)>(s: State<M>, session: Session)
    requires Reachable(s)
    ensures var id := s.table.curReqId + 1;
            Execute(s, [CallInsert(session), CallArm(id), CallRecord(id), CallSend(id, false), CallGiveUp(id)])
              == Some(AfterCall(s, session, SendError, None))
  {
    hide Reachable, Execute;
    CallSent(s, session, false);
    var id := s.table.curReqId + 1;
    var call := [CallInsert(session), CallArm(id), CallRecord(id), CallSend(id, false)];
    var t := Execute(s, call).value;
    ExecuteAppend(s, call, [CallGiveUp(id)]);
    ExecuteOne(t, CallGiveUp(id));
    assert Next(t, CallGiveUp(id)) == AfterCall(s, session, SendError, None);
    assert call + [CallGiveUp(id)]
        == [CallInsert(session), CallArm(id), CallRecord(id), CallSend(id, false), CallGiveUp(id)];
  }

  /** A timer record without a callback. */
  predicate IsStale<M>(t: Table<M>, id: nat) {
    id in t.overtime && id !in t.callbacks
  }

  /** Every recorded timer belongs to a registered callback. */
  predicate NoStaleTimer<M>(t: Table<M>) {
    t.overtime.Keys <= t.callbacks
  }

  /** From any state, a record becomes stale exactly in the step that makes it for a request already completed. */
  lemma StaleExactlyWhenRecordedLate<M>(s: State<M>, step: Step<M>, id: nat)
    requires Enabled(s, step)
    ensures !IsStale(s.table, id) && IsStale(Next(s, step).table, id)
       <==> step == CallRecord(id) && id !in s.table.callbacks && id !in s.table.overtime
  {
  }

  /** In each step of a run that records a timer, the callback is still registered. */
  predicate RecordsInTime<M>(s: State<M>, steps: seq<Step<M>>)
    requires Execute(s, steps).Some?
    decreases |steps|
  {
    steps != [] ==>
      && (steps[0].CallRecord? ==> steps[0].id in s.table.callbacks)
      && RecordsInTime(Next(s, steps[0]), steps[1..])
  }

  /** No state of a run has a stale record. */
  predicate NeverStale<M>(s: State<M>, steps: seq<Step<M>>)
    requires Execute(s, steps).Some?
    decreases |steps|
  {
    NoStaleTimer(s.table) && (steps != [] ==> NeverStale(Next(s, steps[0]), steps[1..]))
  }

  /** A run from a table without stale records has none in any state exactly if it never records a timer late. */
  lemma {:induction false} StaleExactlyInLateRuns<M>(s: State<M>, steps: seq<Step<M>>)
    requires Execute(s, steps).Some? && NoStaleTimer(s.table)
    ensures NeverStale(s, steps) <==> RecordsInTime(s, steps)
    decreases |steps|
  {
    hide Enabled, Next, NoStaleTimer;
    if steps != [] {
      var next := Next(s, steps[0]);
      StaleAfterStep(s, steps[0]);
      if NoStaleTimer(next.table) {
        StaleExactlyInLateRuns(next, steps[1..]);
      } else {
        assert !NeverStale(next, steps[1..]);
      }
    }
  }

  lemma StaleAfterStep<M>(s: State<M>, step: Step<M>)
    requires Enabled(s, step) && NoStaleTimer(s.table)
    ensures NoStaleTimer(Next(s, step).table) <==> (step.CallRecord? ==> step.id in s.table.callbacks)
  {
    hide Enabled, Next;
    forall id ensures IsStale(Next(s, step).table, id) <==> step == CallRecord(id) && id !in s.table.callbacks {
      StaleExactlyWhenRecordedLate(s, step, id);
      assert !IsStale(s.table, id);
    }
    if step.CallRecord? && step.id !in s.table.callbacks {
      assert IsStale(Next(s, step).table, step.id);
    } else {
      forall id | id in Next(s, step).table.overtime ensures id in Next(s, step).table.callbacks {
        assert !IsStale(Next(s, step).table, id);
      }
    }
  }

  /**
   It happens: a timeout that runs between arming and recording runs the callback without
   its session, and the record made afterwards is left with no timer to clear it.
   */
  lemma TimeoutBeforeRecord<M>(session: Session)
    ensures var steps: seq<Step<M>> := [CallInsert(session), CallArm(1), TimerFires(1), TimeoutRuns(1), CallRecord(1)];
            Execute(Start<M>(), steps) == Some(State(
              Table(1, {}, map[1 := Timer(session, 1)], map[], 1, [Run(1, NO_SESSION, Timeout, None)]),
              map[1 := Recorded], map[1 := session], map[]))
  {
    var s0 := Start<M>();
    var s1 := Next(s0, CallInsert(session));
    var s2 := Next(s1, CallArm(1));
    var s3 := Next(s2, TimerFires(1));
    var s4 := Next(s3, TimeoutRuns(1));
    var s5 := Next(s4, CallRecord(1));
    assert s4.table.runs == [Run(1, NO_SESSION, Timeout, None)];
    assert s5 == State(Table(1, {}, map[1 := Timer(session, 1)], map[], 1, [Run(1, NO_SESSION, Timeout, None)]),
                       map[1 := Recorded], map[1 := session], map[]);
    var p5: seq<Step<M>> := [CallRecord(1)] + [];
    var p4: seq<Step<M>> := [TimeoutRuns(1)] + p5;
    var p3: seq<Step<M>> := [TimerFires(1)] + p4;
    var p2: seq<Step<M>> := [CallArm(1)] + p3;
    ExecuteCons(s0, CallInsert(session), p2);
    ExecuteCons(s1, CallArm(1), p3);
    ExecuteCons(s2, TimerFires(1), p4);
    ExecuteCons(s3, TimeoutRuns(1), p5);
    ExecuteCons(s4, CallRecord(1), []);
    assert [CallInsert(session)] + p2
        == [CallInsert(session), CallArm(1), TimerFires(1), TimeoutRuns(1), CallRecord(1)];
  }

  lemma ExecuteCons<M>(s: State<M>, step: Step<M>, rest: seq<Step<M>>)
    requires Enabled(s, step)
    ensures Execute(s, [step] + rest) == Execute(Next(s, step), rest)
  {
    assert ([step] + rest)[1..] == rest;
  }
}
