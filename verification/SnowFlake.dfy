/**
 The Snowflake id generator: a millisecond timestamp, a worker id and a sequence number
 packed into 64 bits. The clock is an arbitrary list of readings and may go backwards.
 Words are numbers below 2^64 with the wrap-around written out.
 */
module SnowFlake {
  import opened Arithmetic
  import opened Wrappers

  const U64: int := 0x1_0000_0000_0000_0000
  const TIME_FIELD: int := 0x400_0000_0000
  const INVALID_ID: nat := 0
  const TWEPOCH: int := 1609430400000
  const SEQUENCES: nat := 4096
  const WORKERS: nat := 1024

  /**
   The id: the time since the epoch shifted by 22, or-ed with the worker shifted by 12 and
   the sequence number. The fields do not overlap, so the or is a sum (`OrIsSum`); the
   subtraction wraps, and the shift drops what exceeds 64 bits.
   */
  function Pack(time: nat, worker: nat, sequence: nat): nat {
    (time - TWEPOCH) % U64 * 0x40_0000 % U64 + worker * SEQUENCES + sequence
  }

  /** The word the code computes, for every time and all workers and sequence numbers that fit their fields. */
  lemma OrIsSum(time: bv64, worker: bv64, sequence: bv64)
    requires worker & 0x3ff == worker && sequence & 0xfff == sequence
    ensures (time << 22) | (worker << 12) | sequence == (time << 22) + (worker << 12) + sequence
  {
  }

  datatype State = State(workerId: nat, sequence: nat, last: nat)

  const FRESH := State(0, 0, 0)

  /** Worker and sequence fit their fields. */
  predicate Fits(s: State) {
    s.workerId < WORKERS && s.sequence < SEQUENCES
  }

  /** A call returns an id, or still waits for the clock when its readings have run out. */
  datatype Outcome = Blocked | Returned(id: nat)

  /** The first reading after `last`. */
  function FirstAfter(clock: seq<nat>, last: nat): Option<nat> {
    if clock == [] then None
    else if clock[0] > last then Some(clock[0])
    else FirstAfter(clock[1..], last)
  }

  /** The ten low bits of the number given. */
  function SetWorker(s: State, worker: nat): State {
    s.(workerId := worker % WORKERS)
  }

  function NextSequence(sequence: nat): nat {
    (sequence + 1) % SEQUENCES
  }

  /** The timestamp and sequence number a call of `get_id` settles on, if any. */
  datatype Choice = Wait | Refuse | Take(time: nat, sequence: nat)

  function Choose(s: State, clock: seq<nat>): Choice {
    if clock == [] then Wait
    else if clock[0] < s.last then Refuse
    else if clock[0] > s.last then Take(clock[0], 0)
    else if NextSequence(s.sequence) != 0 then Take(clock[0], NextSequence(s.sequence))
    else match FirstAfter(clock[1..], s.last)
         case None => Wait
         case Some(t) => Take(t, 0)
  }

  class SnowFlakeID {
    var workerId: nat
    var sequence: nat
    var lastTimestamp: nat

    ghost function View(): State
      reads this
    {
      State(workerId, sequence, lastTimestamp)
    }

    constructor ()
      ensures View() == FRESH
    {
      workerId, sequence, lastTimestamp := 0, 0, 0;
    }

    method SetWorkerId(worker: nat)
      modifies this
      ensures View() == SetWorker(old(View()), worker) && workerId == worker % 1024
    {
      workerId := worker % WORKERS;
    }

    method TilNextMillis(clock: seq<nat>, last: nat) returns (timestamp: Option<nat>)
      ensures timestamp == FirstAfter(clock, last)
    {
      var i := 0;
      while i < |clock| && clock[i] <= last
        invariant i <= |clock|
        invariant FirstAfter(clock, last) == FirstAfter(clock[i..], last)
      {
        assert clock[i..][1..] == clock[i + 1..];
        i := i + 1;
      }
      timestamp := if i < |clock| then Some(clock[i]) else None;
    }

    /** While a call waits for the next millisecond, the lock is held and the sequence number is reset. */
    method GetId(clock: seq<nat>) returns (r: Outcome)
      modifies this
      ensures match Choose(old(View()), clock)
              case Wait => r == Blocked && View() == old(View()).(sequence := if clock == [] then old(sequence) else 0)
              case Refuse => r == Returned(INVALID_ID) && View() == old(View())
              case Take(t, q) => r == Returned(Pack(t, old(workerId), q)) && View() == State(old(workerId), q, t)
    {
      if clock == [] {
        return Blocked;
      }
      var timestamp := clock[0];
      if timestamp < lastTimestamp {
        return Returned(INVALID_ID);
      }
      if lastTimestamp == timestamp {
        sequence := NextSequence(sequence);
        if sequence == 0 {
          var next := TilNextMillis(clock[1..], lastTimestamp);
          if next == None {
            return Blocked;
          }
          timestamp := next.value;
        }
      } else {
        sequence := 0;
      }
      lastTimestamp := timestamp;
      r := Returned(Pack(timestamp, workerId, sequence));
    }
  }

  // ------------------------------------------------------------- the fields of an id

  function TimeField(time: nat): (f: nat)
    ensures f < TIME_FIELD
  {
    (time - TWEPOCH) % TIME_FIELD
  }

  /** A shift by 22 keeps the low 42 bits. */
  lemma ShiftKeepsLow(d: nat)
    ensures d * 0x40_0000 % U64 == d % TIME_FIELD * 0x40_0000
  {
    var k, b := d / TIME_FIELD, d % TIME_FIELD;
    assert d == TIME_FIELD * k + b;
    assert d * 0x40_0000 == U64 * k + b * 0x40_0000;
    DivisionUnique(d * 0x40_0000, U64, k, b * 0x40_0000);
  }

  lemma LowOfWrapped(x: int)
    ensures x % U64 % TIME_FIELD == x % TIME_FIELD
  {
    var k, y := x / U64, x % U64;
    var a, b := y / TIME_FIELD, y % TIME_FIELD;
    assert x == U64 * k + y && y == TIME_FIELD * a + b;
    assert x == TIME_FIELD * (0x40_0000 * k + a) + b;
    DivisionUnique(x, TIME_FIELD, 0x40_0000 * k + a, b);
  }

  /** 42 bits of the time reach the id. */
  lemma PackFields(time: nat, worker: nat, sequence: nat)
    ensures Pack(time, worker, sequence) == TimeField(time) * 0x40_0000 + worker * SEQUENCES + sequence
  {
    LowOfWrapped(time - TWEPOCH);
    ShiftKeepsLow((time - TWEPOCH) % U64);
  }

  predicate FitFields(worker: nat, sequence: nat) {
    worker < WORKERS && sequence < SEQUENCES
  }

  /** Two ids are equal exactly if worker and sequence number are and the times agree modulo 2^42. */
  lemma PackEqual(t: nat, w: nat, q: nat, u: nat, v: nat, r: nat)
    requires FitFields(w, q) && FitFields(v, r)
    ensures Pack(t, w, q) == Pack(u, v, r) <==> w == v && q == r && (t - u) % TIME_FIELD == 0
  {
    hide Pack;
    PackFields(t, w, q);
    PackFields(u, v, r);
    assert (t - u) % TIME_FIELD == 0 <==> TimeField(t) == TimeField(u);
  }

  /** The top bit, said to be unused, is clear exactly for times whose field fits 41 bits. */
  lemma TopBitClear(t: nat, w: nat, q: nat)
    requires FitFields(w, q)
    ensures Pack(t, w, q) < 0x8000_0000_0000_0000 <==> TimeField(t) < 0x200_0000_0000
  {
    hide Pack, TimeField;
    PackFields(t, w, q);
  }

  /** Strictly after the epoch and within 2^42 ms of it. */
  predicate InWindow(t: nat) {
    TWEPOCH < t < TWEPOCH + TIME_FIELD
  }

  /** A valid id looks like an invalid one only 2^42 ms apart from the epoch, or at it. */
  lemma PackInvalid(t: nat, w: nat, q: nat)
    requires FitFields(w, q)
    ensures Pack(t, w, q) == INVALID_ID <==> w == 0 && q == 0 && (t - TWEPOCH) % TIME_FIELD == 0
  {
    hide Pack;
    PackFields(t, w, q);
  }

  // ------------------------------------------------------------- runs

  /** What an id was made of. */
  datatype Stamp = Stamp(time: nat, worker: nat, sequence: nat)

  function IdOf(s: Stamp): nat {
    Pack(s.time, s.worker, s.sequence)
  }

  /** A call that returns, with the clock readings it sees, or a change of the worker id. */
  datatype Op = Get(clock: seq<nat>) | Set(worker: nat)

  /** The generator and the stamps of the valid ids it has returned, oldest first. */
  datatype Run = Run(state: State, issued: seq<Stamp>)

  function Apply(r: Run, op: Op): Option<Run> {
    match op
    case Set(worker) => Some(r.(state := SetWorker(r.state, worker)))
    case Get(clock) =>
      match Choose(r.state, clock)
      case Wait => None
      case Refuse => Some(r)
      case Take(t, q) =>
        Some(Run(State(r.state.workerId, q, t), r.issued + [Stamp(t, r.state.workerId, q)]))
  }

  function Execute(r: Run, ops: seq<Op>): Option<Run>
    decreases |ops|
  {
    if ops == [] then Some(r)
    else match Apply(r, ops[0])
         case None => None
         case Some(next) => Execute(next, ops[1..])
  }

  predicate Before(t: nat, q: nat, u: nat, r: nat) {
    t < u || (t == u && q < r)
  }

  predicate StampOk(s: State, p: Stamp) {
    FitFields(p.worker, p.sequence) && !Before(s.last, s.sequence, p.time, p.sequence)
  }

  /** Time and sequence number of the ids grow, and the generator is not behind the last one. */
  ghost predicate InOrder(r: Run) {
    && Fits(r.state)
    && (forall i | 0 <= i < |r.issued| :: StampOk(r.state, r.issued[i]))
    && (forall i, j | 0 <= i < j < |r.issued| ::
          Before(r.issued[i].time, r.issued[i].sequence, r.issued[j].time, r.issued[j].sequence))
  }

  /** A first reading after `last` is one. */
  lemma {:induction false} FirstAfterIsLater(clock: seq<nat>, last: nat)
    ensures FirstAfter(clock, last).Some? ==> FirstAfter(clock, last).value > last
  {
    if clock != [] && clock[0] <= last {
      FirstAfterIsLater(clock[1..], last);
    }
  }

  /** Whatever the clock does, a call that gives an id moves the generator forward. */
  lemma ChoiceAdvances(s: State, clock: seq<nat>)
    requires Fits(s) && Choose(s, clock).Take?
    ensures var c := Choose(s, clock);
            Before(s.last, s.sequence, c.time, c.sequence) && c.sequence < SEQUENCES
  {
    FirstAfterIsLater(clock[1..], s.last);
  }

  lemma ApplyKeepsOrder(r: Run, op: Op)
    requires InOrder(r) && Apply(r, op).Some?
    ensures InOrder(Apply(r, op).value)
  {
    hide Choose;
    if op.Get? && Choose(r.state, op.clock).Take? {
      ChoiceAdvances(r.state, op.clock);
    }
  }

  lemma {:induction false} RunsStayInOrder(r: Run, ops: seq<Op>)
    requires InOrder(r) && Execute(r, ops).Some?
    ensures InOrder(Execute(r, ops).value)
    decreases |ops|
  {
    hide InOrder, Apply;
    if ops != [] {
      ApplyKeepsOrder(r, ops[0]);
      RunsStayInOrder(Apply(r, ops[0]).value, ops[1..]);
    }
  }

  /** What a new generator has issued after some operations. */
  function Issued(ops: seq<Op>): seq<Stamp>
    requires Execute(Run(FRESH, []), ops).Some?
  {
    Execute(Run(FRESH, []), ops).value.issued
  }

  /**
   Exactly when two ids of one generator collide: same worker, same sequence number, and
   times a positive multiple of 2^42 ms apart.
   */
  lemma Collision(ops: seq<Op>, i: nat, j: nat)
    requires Execute(Run(FRESH, []), ops).Some? && i < j < |Issued(ops)|
    ensures var p, q := Issued(ops)[i], Issued(ops)[j];
            IdOf(p) == IdOf(q) <==>
              p.worker == q.worker && p.sequence == q.sequence && p.time < q.time && (q.time - p.time) % TIME_FIELD == 0
  {
    hide Pack, Execute;
    var p, q := Issued(ops)[i], Issued(ops)[j];
    RunsStayInOrder(Run(FRESH, []), ops);
    PackEqual(q.time, q.worker, q.sequence, p.time, p.worker, p.sequence);
  }

  /** Exactly when a later id is the greater one, for ids made with the same worker. */
  lemma Growth(ops: seq<Op>, i: nat, j: nat)
    requires Execute(Run(FRESH, []), ops).Some? && i < j < |Issued(ops)|
    requires Issued(ops)[i].worker == Issued(ops)[j].worker
    ensures var p, q := Issued(ops)[i], Issued(ops)[j];
            IdOf(p) < IdOf(q) <==> Before(TimeField(p.time), p.sequence, TimeField(q.time), q.sequence)
  {
    hide Pack, Execute, TimeField;
    var p, q := Issued(ops)[i], Issued(ops)[j];
    RunsStayInOrder(Run(FRESH, []), ops);
    PackFields(p.time, p.worker, p.sequence);
    PackFields(q.time, q.worker, q.sequence);
  }

  /**
   Within the window the ids of a generator are all different and none looks invalid, for
   any clock and any changes of the worker id; they grow as long as the worker id is the same.
   */
  lemma IdsDistinct(ops: seq<Op>, i: nat, j: nat)
    requires Execute(Run(FRESH, []), ops).Some? && i < j < |Issued(ops)|
    requires InWindow(Issued(ops)[i].time) && InWindow(Issued(ops)[j].time)
    ensures var p, q := Issued(ops)[i], Issued(ops)[j];
            && IdOf(p) != IdOf(q)
            && IdOf(p) != INVALID_ID && IdOf(q) != INVALID_ID
            && (p.worker == q.worker ==> IdOf(p) < IdOf(q))
  {
    hide Pack, Execute, TimeField;
    var p, q := Issued(ops)[i], Issued(ops)[j];
    RunsStayInOrder(Run(FRESH, []), ops);
    Collision(ops, i, j);
    PackInvalid(p.time, p.worker, p.sequence);
    PackInvalid(q.time, q.worker, q.sequence);
    WindowTime(p.time);
    WindowTime(q.time);
    if p.worker == q.worker {
      Growth(ops, i, j);
    }
  }

  /** In the window an id is milliseconds since the epoch, worker and sequence number, in 42, 10 and 12 bits. */
  lemma IdInWindow(s: Stamp)
    requires FitFields(s.worker, s.sequence) && InWindow(s.time)
    ensures s.time > 1609430400000
    ensures IdOf(s) == (s.time - 1609430400000) * 4194304 + s.worker * 4096 + s.sequence < 0x1_0000_0000_0000_0000
  {
    hide Pack;
    PackFields(s.time, s.worker, s.sequence);
    WindowTime(s.time);
  }

  lemma WindowTime(t: nat)
    requires InWindow(t)
    ensures TimeField(t) == t - TWEPOCH
  {
  }

  /** Calls that read the same clock value first, whatever they would read after it. */
  predicate AllAt(ops: seq<Op>, t: nat) {
    forall i | 0 <= i < |ops| :: ops[i].Get? && ops[i].clock != [] && ops[i].clock[0] == t
  }

  function Numbered(t: nat, worker: nat, n: nat): (stamps: seq<Stamp>)
    ensures |stamps| == n
  {
    seq(n, i requires 0 <= i < n => Stamp(t, worker, i))
  }

  lemma {:induction false} ExecuteSnoc(r: Run, ops: seq<Op>, op: Op)
    ensures Execute(r, ops + [op]) ==
              match Execute(r, ops)
              case None => None
              case Some(next) => Apply(next, op)
    decreases |ops|
  {
    hide Apply;
    if ops == [] {
      assert ([op])[1..] == [] && ops + [op] == [op];
    } else {
      assert (ops + [op])[1..] == ops[1..] + [op];
      if Apply(r, ops[0]).Some? {
        ExecuteSnoc(Apply(r, ops[0]).value, ops[1..], op);
      }
    }
  }

  /**
   The calls of one millisecond, up to 4096 of them, get its time, the worker, and the
   sequence numbers from 0 on, without a gap.
   */
  lemma {:induction false} MillisecondNumbers(r: Run, ops: seq<Op>, t: nat)
    requires r.state.last < t && AllAt(ops, t) && 1 <= |ops| <= 4096
    ensures var n, w := |ops|, r.state.workerId;
            Execute(r, ops) == Some(Run(State(w, n - 1, t), r.issued + Numbered(t, w, n)))
    decreases |ops|
  {
    hide Execute;
    var n, w := |ops| - 1, r.state.workerId;
    assert ops == ops[..n] + [ops[n]];
    ExecuteSnoc(r, ops[..n], ops[n]);
    NumberedSnoc(t, w, n, r.issued);
    if n == 0 {
      NoOps(r);
      assert ops[..0] == [];
      assert r.issued + [] == r.issued;
    } else {
      MillisecondNumbers(r, ops[..n], t);
    }
  }

  lemma NumberedSnoc(t: nat, worker: nat, n: nat, issued: seq<Stamp>)
    ensures issued + Numbered(t, worker, n + 1) == issued + Numbered(t, worker, n) + [Stamp(t, worker, n)]
    ensures Numbered(t, worker, 0) == []
  {
  }

  lemma NoOps(r: Run)
    ensures Execute(r, []) == Some(r)
  {
  }

  /** The next call in it waits for the first later reading, and starts the numbers again. */
  lemma ExhaustedWaits(r: Run, t: nat, waits: seq<nat>, later: nat, rest: seq<nat>)
    requires r.state.last == t && r.state.sequence == 4095 && later > t
    requires forall i | 0 <= i < |waits| :: waits[i] <= t
    ensures Apply(r, Get([t] + waits + [later] + rest))
         == Some(Run(State(r.state.workerId, 0, later), r.issued + [Stamp(later, r.state.workerId, 0)]))
    ensures Apply(r, Get([t] + waits)) == None
  {
    hide FirstAfter;
    FirstAfterWaits(waits, [later] + rest, t);
    FirstAfterWaits(waits, [], t);
    FirstAfterEnds(later, rest, t);
    assert ([t] + waits + [later] + rest)[1..] == waits + ([later] + rest);
    assert ([t] + waits)[1..] == waits + [];
  }

  lemma FirstAfterEnds(later: nat, rest: seq<nat>, last: nat)
    requires later > last
    ensures FirstAfter([later] + rest, last) == Some(later) && FirstAfter([], last) == None
  {
  }

  lemma {:induction false} FirstAfterWaits(waits: seq<nat>, rest: seq<nat>, last: nat)
    requires forall i | 0 <= i < |waits| :: waits[i] <= last
    ensures FirstAfter(waits + rest, last) == FirstAfter(rest, last)
  {
    if waits == [] {
      assert waits + rest == rest;
    } else {
      assert (waits + rest)[1..] == waits[1..] + rest;
      FirstAfterWaits(waits[1..], rest, last);
    }
  }

  /** A call that reads a time before that of the last id is refused, and changes nothing. */
  lemma RollbackRefused(r: Run, clock: seq<nat>)
    requires clock != [] && clock[0] < r.state.last
    ensures Choose(r.state, clock) == Refuse && Apply(r, Get(clock)) == Some(r) && INVALID_ID == 0
  {
  }

  /** Generators never collide while they use different worker ids, whatever their clocks. */
  lemma WorkersDisjoint(ops: seq<Op>, others: seq<Op>, i: nat, j: nat)
    requires Execute(Run(FRESH, []), ops).Some? && i < |Issued(ops)|
    requires Execute(Run(FRESH, []), others).Some? && j < |Issued(others)|
    requires Issued(ops)[i].worker != Issued(others)[j].worker
    ensures IdOf(Issued(ops)[i]) != IdOf(Issued(others)[j])
  {
    hide Pack, Execute;
    var p, q := Issued(ops)[i], Issued(others)[j];
    RunsStayInOrder(Run(FRESH, []), ops);
    RunsStayInOrder(Run(FRESH, []), others);
    PackEqual(p.time, p.worker, p.sequence, q.time, q.worker, q.sequence);
  }
}
