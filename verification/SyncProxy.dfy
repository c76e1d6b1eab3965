/**
 The table of pending synchronous calls of one endpoint: a promise per request number,
 shared between the waiting caller and the thread that receives the reply.
 */
module SyncProxy {
  import opened RpcTypes
  import opened Wrappers

  /** Numbers handed out, the numbers that can still be looked up, and the promises that were set. */
  datatype Table<+M> = Table(curReqId: nat, registered: set<nat>, values: map<nat, M>)

  function Initial<M>(): Table<M> {
    Table(0, {}, map[])
  }

  function Issue<M>(t: Table<M>): Table<M> {
    t.(curReqId := t.curReqId + 1, registered := t.registered + {t.curReqId + 1})
  }

  function Drop<M>(t: Table<M>, id: nat): Table<M> {
    t.(registered := t.registered - {id})
  }

  /** A promise is set at most once; `Satisfied` says that another attempt throws. */
  predicate Satisfied<M>(t: Table<M>, id: nat) {
    id in t.values
  }

  function SetValue<M>(t: Table<M>, id: nat, msg: M): Table<M> {
    if Satisfied(t, id) then t else t.(values := t.values[id := msg])
  }

  class Promise<M> {
    var value: Option<M>

    constructor ()
      ensures value == None
    {
      value := None;
    }

    method Set(msg: M) returns (thrown: bool)
      modifies this
      ensures thrown == old(value).Some?
      ensures value == if old(value).Some? then old(value) else Some(msg)
    {
      thrown := value.Some?;
      if !thrown {
        value := Some(msg);
      }
    }
  }

  /** The promises that were set, with their values. */
  ghost function Fulfilled<M>(promises: map<nat, Promise<M>>): map<nat, M>
    reads promises.Values
  {
    map id | id in promises && promises[id].value.Some? :: promises[id].value.value
  }

  lemma NewPromiseUnset<M>(promises: map<nat, Promise<M>>, id: nat, p: Promise<M>)
    requires id !in promises && p.value == None
    ensures Fulfilled(promises[id := p]) == Fulfilled(promises)
  {
  }

  class Proxy<M> {
    var curReqId: nat
    var futureMap: map<nat, Promise<M>>
    /** Every promise ever made; callers may hold them after they left the table. */
    ghost var promises: map<nat, Promise<M>>

    ghost predicate Valid()
      reads this
    {
      && (forall id :: id in promises <==> 1 <= id <= curReqId)
      && (forall id :: id in futureMap ==> id in promises && futureMap[id] == promises[id])
      && (forall i, j :: i in promises && j in promises && i != j ==> promises[i] != promises[j])
    }

    ghost function View(): Table<M>
      reads this, promises.Values
    {
      Table(curReqId, futureMap.Keys, Fulfilled(promises))
    }

    constructor ()
      ensures Valid() && View() == Initial()
    {
      curReqId, futureMap := 0, map[];
      promises := map[];
    }

    method GetNextPromise() returns (id: nat)
      requires Valid()
      modifies this
      ensures Valid() && View() == Issue(old(View())) && id == curReqId
      ensures fresh(promises.Values - old(promises.Values))
    {
      hide Fulfilled;
      var p := new Promise<M>();
      NewPromiseUnset(promises, curReqId + 1, p);
      curReqId := curReqId + 1;
      futureMap := futureMap[curReqId := p];
      promises := promises[curReqId := p];
      id := curReqId;
    }

    method GetPromise(id: nat) returns (p: Promise?<M>)
      requires Valid()
      ensures p == if id in futureMap then promises[id] else null
    {
      p := if id in futureMap then futureMap[id] else null;
    }

    method Remove(id: nat)
      requires Valid()
      modifies this
      ensures Valid() && View() == Drop(old(View()), id) && promises == old(promises)
    {
      futureMap := futureMap - {id};
    }

    /** The receiving thread: looks the promise up and sets it; nothing happens for unknown numbers. */
    method Invoke(id: nat, msg: M) returns (thrown: bool)
      requires Valid()
      modifies promises.Values
      ensures Valid()
      ensures View() == if id in old(View()).registered then SetValue(old(View()), id, msg) else old(View())
      ensures thrown == (id in old(View()).registered && Satisfied(old(View()), id))
    {
      thrown := false;
      var p := GetPromise(id);
      if p != null {
        thrown := p.Set(msg);
      }
    }

    /** The end of `wait_for`, when the wait is over one way or the other. */
    method FinishWait(id: nat, ready: bool) returns (status: MsgStatus, msg: Option<M>)
      requires Valid() && id in futureMap
      requires ready ==> futureMap[id].value.Some?
      modifies this
      ensures Valid() && View() == Drop(old(View()), id)
      ensures status == if ready then Ok else Timeout
      ensures msg == if ready then Some(old(View()).values[id]) else None
    {
      var p := futureMap[id];
      Remove(id);
      status, msg := if ready then Ok else Timeout, if ready then p.value else None;
    }
  }
}
