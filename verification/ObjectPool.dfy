/**
 The node pool: a free list threaded through the free slots of chunks of raw memory. A
 slot is reused in place, so it holds either a link of the list or an object of the caller.
 */
module ObjectPool {
  import opened Wrappers

  /** A slot of the block allocated as number `block`. */
  datatype Addr = Addr(block: nat, index: nat)

  datatype Content<+T> = Raw | Link(next: Option<Addr>) | Object(value: T)

  type Memory<+T> = seq<seq<Content<T>>>

  predicate IsSlot<T>(m: Memory<T>, a: Addr) {
    a.block < |m| && a.index < |m[a.block]|
  }

  function Read<T>(m: Memory<T>, a: Addr): Content<T>
    requires IsSlot(m, a)
  {
    m[a.block][a.index]
  }

  function Write<T>(m: Memory<T>, a: Addr, c: Content<T>): Memory<T>
    requires IsSlot(m, a)
  {
    m[a.block := m[a.block][a.index := c]]
  }

  /** The number of slots of all blocks. */
  function Slots<T>(m: Memory<T>): nat {
    if m == [] then 0 else Slots(m[..|m| - 1]) + |m[|m| - 1]|
  }

  /** The pool's fields, with the contents of its blocks. */
  datatype Pool<+T> = Pool(memory: Memory<T>, free: Option<Addr>, chunkSize: nat, capacity: nat)

  /** A new block: each slot links to the one behind it, the last one to the old free list. */
  function Chunk<T>(block: nat, n: nat, free: Option<Addr>): seq<Content<T>> {
    seq(n, i requires 0 <= i < n => Link(if i + 1 < n then Some(Addr(block, i + 1)) else free))
  }

  function Grow<T>(p: Pool<T>, n: nat): Pool<T>
    requires n > 0
  {
    var b := |p.memory|;
    Pool(p.memory + [Chunk(b, n, p.free)], Some(Addr(b, 0)), p.chunkSize, p.capacity + n)
  }

  /** The pool with room for an object. */
  function WithRoom<T>(p: Pool<T>): Pool<T>
    requires p.chunkSize > 0
  {
    if p.free.Some? then p else Grow(p, p.chunkSize)
  }

  predicate HeadIsLink<T>(p: Pool<T>) {
    p.free.Some? && IsSlot(p.memory, p.free.value) && Read(p.memory, p.free.value).Link?
  }

  /** The head of the free list is unlinked and its slot holds the object. */
  function Pop<T>(p: Pool<T>, v: T): Pool<T>
    requires HeadIsLink(p)
  {
    var a := p.free.value;
    p.(free := Read(p.memory, a).next, memory := Write(p.memory, a, Object(v)))
  }

  function Push<T>(p: Pool<T>, a: Addr): Pool<T>
    requires IsSlot(p.memory, a)
  {
    p.(memory := Write(p.memory, a, Link(p.free)), free := Some(a))
  }

  // ------------------------------------------------------------- invariants

  function At(path: seq<Addr>, i: nat): Option<Addr> {
    if i < |path| then Some(path[i]) else None
  }

  /** Following the links from the head visits exactly the slots of `path`, each once, and ends. */
  ghost predicate FreeList<T>(m: Memory<T>, free: Option<Addr>, path: seq<Addr>) {
    && free == At(path, 0)
    && (forall i | 0 <= i < |path| :: IsSlot(m, path[i]) && Read(m, path[i]) == Link(At(path, i + 1)))
    && (forall i, j | 0 <= i < j < |path| :: path[i] != path[j])
  }

  /** The live slots hold the objects that were put there. */
  ghost predicate Holds<T>(m: Memory<T>, live: map<Addr, T>) {
    forall a :: a in live ==> IsSlot(m, a) && Read(m, a) == Object(live[a])
  }

  /**
   The slots of all blocks are split between the free list and the live objects; `preallocate`
   is counted into the capacity twice.
   */
  ghost predicate Inv<T>(p: Pool<T>, path: seq<Addr>, live: map<Addr, T>, preallocate: nat) {
    && p.chunkSize > 0
    && FreeList(p.memory, p.free, path)
    && Holds(p.memory, live)
    && (forall a :: IsSlot(p.memory, a) ==> a in path || a in live)
    && |path| + |live| == Slots(p.memory)
    && p.capacity == preallocate + Slots(p.memory)
  }

  lemma SlotsOfWrite<T>(m: Memory<T>, a: Addr, c: Content<T>)
    requires IsSlot(m, a)
    ensures Slots(Write(m, a, c)) == Slots(m)
  {
    var n := |m| - 1;
    var w := Write(m, a, c);
    if a.block == n {
      assert w[..n] == m[..n];
    } else {
      SlotsOfWrite(m[..n], a, c);
      assert w[..n] == Write(m[..n], a, c);
    }
  }

  lemma SlotsOfGrow<T>(m: Memory<T>, chunk: seq<Content<T>>)
    ensures Slots(m + [chunk]) == Slots(m) + |chunk|
  {
    assert (m + [chunk])[..|m|] == m;
  }

  /** The addresses of a new block, in order. */
  function NewSlots(block: nat, n: nat): (r: seq<Addr>)
    ensures |r| == n
  {
    seq(n, i requires 0 <= i < n => Addr(block, i))
  }

  lemma WriteFrame<T>(m: Memory<T>, a: Addr, c: Content<T>, x: Addr)
    requires IsSlot(m, a)
    ensures IsSlot(Write(m, a, c), x) <==> IsSlot(m, x)
    ensures IsSlot(m, x) ==> Read(Write(m, a, c), x) == if x == a then c else Read(m, x)
  {
  }

  lemma FreeListWrite<T>(m: Memory<T>, free: Option<Addr>, path: seq<Addr>, a: Addr, c: Content<T>)
    requires FreeList(m, free, path) && IsSlot(m, a) && a !in path
    ensures FreeList(Write(m, a, c), free, path)
  {
    hide IsSlot, Read, Write, At;
    forall i | 0 <= i < |path|
      ensures IsSlot(Write(m, a, c), path[i]) && Read(Write(m, a, c), path[i]) == Link(At(path, i + 1))
    {
      WriteFrame(m, a, c, path[i]);
    }
  }

  lemma FreeListTail<T>(m: Memory<T>, free: Option<Addr>, path: seq<Addr>)
    requires FreeList(m, free, path) && path != []
    ensures IsSlot(m, path[0]) && Read(m, path[0]) == Link(At(path, 1))
    ensures FreeList(m, At(path, 1), path[1..]) && path[0] !in path[1..]
  {
    hide IsSlot, Read;
  }

  lemma FreeListCons<T>(m: Memory<T>, free: Option<Addr>, path: seq<Addr>, a: Addr)
    requires FreeList(m, free, path) && a !in path && IsSlot(m, a) && Read(m, a) == Link(free)
    ensures FreeList(m, Some(a), [a] + path)
  {
    hide IsSlot, Read;
    var longer := [a] + path;
    forall i | 0 <= i < |longer| ensures IsSlot(m, longer[i]) && Read(m, longer[i]) == Link(At(longer, i + 1)) {
      if i > 0 {
        assert longer[i] == path[i - 1] && At(longer, i + 1) == At(path, i);
      }
    }
  }

  lemma HoldsWrite<T>(m: Memory<T>, live: map<Addr, T>, a: Addr, v: T)
    requires Holds(m, live) && IsSlot(m, a)
    ensures Holds(Write(m, a, Object(v)), live[a := v])
  {
    hide IsSlot, Read, Write;
    forall x | x in live[a := v]
      ensures IsSlot(Write(m, a, Object(v)), x) && Read(Write(m, a, Object(v)), x) == Object(live[a := v][x])
    {
      WriteFrame(m, a, Object(v), x);
    }
  }

  lemma HoldsRelease<T>(m: Memory<T>, live: map<Addr, T>, a: Addr, c: Content<T>)
    requires Holds(m, live) && IsSlot(m, a)
    ensures Holds(Write(m, a, c), live - {a})
  {
    hide IsSlot, Read, Write;
    forall x | x in live - {a} ensures IsSlot(Write(m, a, c), x) && Read(Write(m, a, c), x) == Object(live[x]) {
      WriteFrame(m, a, c, x);
    }
  }

  /** No slot is both free and live. */
  lemma FreeNotLive<T>(m: Memory<T>, free: Option<Addr>, path: seq<Addr>, live: map<Addr, T>, a: Addr)
    requires FreeList(m, free, path) && Holds(m, live)
    ensures !(a in path && a in live)
  {
    hide IsSlot, Read;
  }

  /** Growing leaves every link and every object as it was. */
  lemma GrowKeepsMemory<T>(p: Pool<T>, n: nat, a: Addr)
    requires n > 0 && IsSlot(p.memory, a)
    ensures IsSlot(Grow(p, n).memory, a) && Read(Grow(p, n).memory, a) == Read(p.memory, a)
  {
  }

  lemma NewBlock<T>(p: Pool<T>, n: nat, a: Addr)
    requires n > 0
    ensures IsSlot(Grow(p, n).memory, a) <==> IsSlot(p.memory, a) || (a.block == |p.memory| && a.index < n)
    ensures a.block == |p.memory| && a.index < n ==>
              Read(Grow(p, n).memory, a) == Link(if a.index + 1 < n then Some(Addr(a.block, a.index + 1)) else p.free)
  {
  }

  /** Link `i` of the free list after growing. */
  lemma GrownLink<T>(p: Pool<T>, path: seq<Addr>, n: nat, i: nat)
    requires FreeList(p.memory, p.free, path) && 0 < n && i < n + |path|
    ensures var m, whole := Grow(p, n).memory, NewSlots(|p.memory|, n) + path;
            IsSlot(m, whole[i]) && Read(m, whole[i]) == Link(At(whole, i + 1))
  {
    hide Read, Chunk, IsSlot, Grow;
    var whole := NewSlots(|p.memory|, n) + path;
    if i < n {
      NewBlock(p, n, Addr(|p.memory|, i));
      assert i + 1 == n ==> At(whole, n) == At(path, 0);
    } else {
      assert whole[i] == path[i - n] && At(whole, i + 1) == At(path, i - n + 1);
      GrowKeepsMemory(p, n, path[i - n]);
    }
  }

  lemma GrownDistinct<T>(m: Memory<T>, path: seq<Addr>, n: nat, i: nat, j: nat)
    requires forall k | 0 <= k < |path| :: IsSlot(m, path[k])
    requires forall k, l | 0 <= k < l < |path| :: path[k] != path[l]
    requires i < j < n + |path|
    ensures (NewSlots(|m|, n) + path)[i] != (NewSlots(|m|, n) + path)[j]
  {
    if n <= j {
      OldSlot(m, path[j - n]);
    }
  }

  lemma GrownList<T>(p: Pool<T>, path: seq<Addr>, n: nat)
    requires FreeList(p.memory, p.free, path) && n > 0
    ensures FreeList(Grow(p, n).memory, Grow(p, n).free, NewSlots(|p.memory|, n) + path)
  {
    hide Read, Chunk, IsSlot;
    var m, whole := Grow(p, n).memory, NewSlots(|p.memory|, n) + path;
    forall i | 0 <= i < |whole| ensures IsSlot(m, whole[i]) && Read(m, whole[i]) == Link(At(whole, i + 1)) {
      GrownLink(p, path, n, i);
    }
    forall i, j | 0 <= i < j < |whole| ensures whole[i] != whole[j] {
      GrownDistinct(p.memory, path, n, i, j);
    }
  }

  lemma OldSlot<T>(m: Memory<T>, a: Addr)
    requires IsSlot(m, a)
    ensures a.block < |m|
  {
  }

  lemma GrownHolds<T>(p: Pool<T>, live: map<Addr, T>, n: nat)
    requires Holds(p.memory, live) && n > 0
    ensures Holds(Grow(p, n).memory, live)
  {
    hide Read, Chunk, IsSlot, Grow;
    forall a | a in live ensures IsSlot(Grow(p, n).memory, a) && Read(Grow(p, n).memory, a) == Object(live[a]) {
      GrowKeepsMemory(p, n, a);
    }
  }

  /** A new block goes to the front of the free list; nothing else changes. */
  lemma GrowKeeps<T>(p: Pool<T>, path: seq<Addr>, live: map<Addr, T>, preallocate: nat, n: nat)
    requires Inv(p, path, live, preallocate) && n > 0
    ensures Inv(Grow(p, n), NewSlots(|p.memory|, n) + path, live, preallocate)
  {
    hide Slots, IsSlot, FreeList, Holds, Chunk;
    var b, g := |p.memory|, Grow(p, n);
    ChunkLength<T>(b, n, p.free);
    SlotsOfGrow(p.memory, Chunk(b, n, p.free));
    GrownList(p, path, n);
    GrownHolds(p, live, n);
    var whole := NewSlots(b, n) + path;
    forall a | IsSlot(g.memory, a) ensures a in whole || a in live {
      NewBlock(p, n, a);
      if a.block == b && a.index < n {
        assert whole[a.index] == a;
      }
    }
  }

  lemma ChunkLength<T>(block: nat, n: nat, free: Option<Addr>)
    ensures |Chunk<T>(block, n, free)| == n
  {
  }

  lemma PopKeeps<T>(p: Pool<T>, path: seq<Addr>, live: map<Addr, T>, preallocate: nat, v: T)
    requires Inv(p, path, live, preallocate) && path != []
    ensures HeadIsLink(p) && p.free == Some(path[0]) && path[0] !in live
    ensures Inv(Pop(p, v), path[1..], live[path[0] := v], preallocate)
  {
    hide Slots, IsSlot, Read, Write, Holds;
    var a := path[0];
    FreeListTail(p.memory, p.free, path);
    FreeNotLive(p.memory, p.free, path, live, a);
    SlotsOfWrite(p.memory, a, Object(v));
    FreeListWrite(p.memory, At(path, 1), path[1..], a, Object(v));
    HoldsWrite(p.memory, live, a, v);
    forall x | IsSlot(Pop(p, v).memory, x) ensures x in path[1..] || x in live[a := v] {
      WriteFrame(p.memory, a, Object(v), x);
    }
  }

  lemma PushKeeps<T>(p: Pool<T>, path: seq<Addr>, live: map<Addr, T>, preallocate: nat, a: Addr)
    requires Inv(p, path, live, preallocate) && a in live
    ensures IsSlot(p.memory, a)
    ensures Inv(Push(p, a), [a] + path, live - {a}, preallocate)
  {
    hide Slots, IsSlot, Read, Write, FreeList;
    var m := Push(p, a).memory;
    FreeNotLive(p.memory, p.free, path, live, a);
    SlotsOfWrite(p.memory, a, Link(p.free));
    FreeListWrite(p.memory, p.free, path, a, Link(p.free));
    WriteFrame(p.memory, a, Link(p.free), a);
    FreeListCons(m, p.free, path, a);
    HoldsRelease(p.memory, live, a, Link(p.free));
    assert (live - {a})[a := live[a]] == live;
    forall x | IsSlot(m, x) ensures x in [a] + path || x in live - {a} {
      WriteFrame(p.memory, a, Link(p.free), x);
    }
  }

  // ------------------------------------------------------------- whole runs

  function Empty<T>(preallocate: nat, chunkSize: nat): Pool<T> {
    Pool([], None, chunkSize, preallocate)
  }

  lemma EmptyInOrder<T>(preallocate: nat, chunkSize: nat)
    requires chunkSize > 0
    ensures Inv(Empty<T>(preallocate, chunkSize), [], map[], preallocate)
  {
  }

  lemma NewPool<T>(p: Pool<T>, preallocate: nat, chunkSize: nat)
    requires chunkSize > 0 && p == Pool([], None, chunkSize, preallocate)
    ensures p == Empty<T>(preallocate, chunkSize) && Inv(p, [], map[], preallocate)
  {
    EmptyInOrder<T>(preallocate, chunkSize);
  }

  /** The free list an allocation takes its slot from. */
  function PathWithRoom<T>(p: Pool<T>, path: seq<Addr>): seq<Addr> {
    if p.free.Some? then path else NewSlots(|p.memory|, p.chunkSize) + path
  }

  lemma RoomKeeps<T>(p: Pool<T>, path: seq<Addr>, live: map<Addr, T>, preallocate: nat)
    requires Inv(p, path, live, preallocate)
    ensures PathWithRoom(p, path) != []
    ensures Inv(WithRoom(p), PathWithRoom(p, path), live, preallocate)
  {
    hide Slots, Holds, Grow;
    if p.free == None {
      GrowKeeps(p, path, live, preallocate, p.chunkSize);
    }
  }

  /** An allocation always finds a link at the head, takes a slot that is not live, and keeps the pool in order. */
  lemma AllocateKeeps<T>(p: Pool<T>, path: seq<Addr>, live: map<Addr, T>, preallocate: nat, v: T)
    requires Inv(p, path, live, preallocate)
    ensures p.chunkSize > 0 && HeadIsLink(WithRoom(p))
    ensures var a := WithRoom(p).free.value;
            && a !in live
            && PathWithRoom(p, path) != [] && a == PathWithRoom(p, path)[0]
            && Inv(Pop(WithRoom(p), v), PathWithRoom(p, path)[1..], live[a := v], preallocate)
  {
    hide Inv, Pop, HeadIsLink, WithRoom, PathWithRoom;
    ChunksNotEmpty(p, path, live, preallocate);
    RoomKeeps(p, path, live, preallocate);
    PopKeeps(WithRoom(p), PathWithRoom(p, path), live, preallocate, v);
  }

  lemma ChunksNotEmpty<T>(p: Pool<T>, path: seq<Addr>, live: map<Addr, T>, preallocate: nat)
    requires Inv(p, path, live, preallocate)
    ensures p.chunkSize > 0
  {
  }

  datatype Op<+T> = Allocate(value: T) | Deallocate(ptr: Option<Addr>)

  /** A run ends early when a caller frees what is not live, or when a link is read that is none. */
  datatype Outcome<+T> = Done(pool: Pool<T>, live: map<Addr, T>) | Misused | Corrupt

  function Apply<T>(p: Pool<T>, live: map<Addr, T>, op: Op<T>): Outcome<T>
    requires p.chunkSize > 0
  {
    match op
    case Allocate(v) =>
      if HeadIsLink(WithRoom(p)) then Done(Pop(WithRoom(p), v), live[WithRoom(p).free.value := v]) else Corrupt
    case Deallocate(None) => Done(p, live)
    case Deallocate(Some(a)) =>
      if a !in live then Misused
      else if IsSlot(p.memory, a) then Done(Push(p, a), live - {a})
      else Corrupt
  }

  function Execute<T>(p: Pool<T>, live: map<Addr, T>, ops: seq<Op<T>>): Outcome<T>
    requires p.chunkSize > 0
    decreases |ops|
  {
    if ops == [] then Done(p, live)
    else match Apply(p, live, ops[0])
         case Done(q, l) => Execute(q, l, ops[1..])
         case other => other
  }

  ghost predicate InOrder<T>(p: Pool<T>, live: map<Addr, T>, preallocate: nat) {
    exists path :: Inv(p, path, live, preallocate)
  }

  lemma ApplyKeeps<T>(p: Pool<T>, live: map<Addr, T>, preallocate: nat, op: Op<T>)
    requires p.chunkSize > 0 && InOrder(p, live, preallocate)
    ensures var r := Apply(p, live, op);
            r != Corrupt && (r.Done? ==> InOrder(r.pool, r.live, preallocate))
  {
    hide Inv, Pop, Push, WithRoom, HeadIsLink, IsSlot, PathWithRoom;
    var path :| Inv(p, path, live, preallocate);
    match op
    case Allocate(v) => AllocateKeeps(p, path, live, preallocate, v);
    case Deallocate(None) =>
    case Deallocate(Some(a)) =>
      if a in live {
        PushKeeps(p, path, live, preallocate, a);
      }
  }

  lemma {:induction false} RunKeeps<T>(p: Pool<T>, live: map<Addr, T>, preallocate: nat, ops: seq<Op<T>>)
    requires p.chunkSize > 0 && InOrder(p, live, preallocate)
    ensures var r := Execute(p, live, ops);
            r != Corrupt && (r.Done? ==> InOrder(r.pool, r.live, preallocate))
    decreases |ops|
  {
    hide InOrder, Apply;
    if ops != [] {
      ApplyKeeps(p, live, preallocate, ops[0]);
      var r := Apply(p, live, ops[0]);
      if r.Done? {
        ApplyKeepsChunkSize(p, live, ops[0]);
        RunKeeps(r.pool, r.live, preallocate, ops[1..]);
      }
    }
  }

  lemma ApplyKeepsChunkSize<T>(p: Pool<T>, live: map<Addr, T>, op: Op<T>)
    requires p.chunkSize > 0 && Apply(p, live, op).Done?
    ensures Apply(p, live, op).pool.chunkSize == p.chunkSize
  {
  }

  /**
   Over every run of a new pool, no slot content is ever mistaken for a link; the free list
   ends without visiting a slot twice, its slots and the live objects are exactly the slots
   of all blocks, and every live object is the one put there.
   */
  lemma PoolStaysInOrder<T>(preallocate: nat, chunkSize: nat, ops: seq<Op<T>>)
    requires preallocate > 0 && chunkSize > 0
    ensures var r := Execute(Grow(Empty<T>(preallocate, chunkSize), preallocate), map[], ops);
            r != Corrupt && (r.Done? ==> InOrder(r.pool, r.live, preallocate))
  {
    hide Inv;
    EmptyInOrder<T>(preallocate, chunkSize);
    GrowKeeps(Empty<T>(preallocate, chunkSize), [], map[], preallocate, preallocate);
    RunKeeps(Grow(Empty<T>(preallocate, chunkSize), preallocate), map[], preallocate, ops);
  }

  // ------------------------------------------------------------- which slot is handed out

  /** The pool without its memory: a stack of free slots, the number of blocks, and the live objects. */
  datatype Stack<+T> = Stack(free: seq<Addr>, blocks: nat, live: map<Addr, T>)

  /** An empty stack is refilled with the slots of one more block, the first of them on top. */
  function Refilled<T>(s: Stack<T>, chunkSize: nat): Stack<T> {
    if s.free != [] then s
    else s.(free := seq(chunkSize, i requires 0 <= i < chunkSize => Addr(s.blocks, i)), blocks := s.blocks + 1)
  }

  /** An allocation takes the slot on top; a slot given back goes on top. None if it was not live. */
  function StackStep<T>(s: Stack<T>, chunkSize: nat, op: Op<T>): Option<Stack<T>>
    requires chunkSize > 0
  {
    match op
    case Allocate(v) => var r := Refilled(s, chunkSize); Some(Stack(r.free[1..], r.blocks, r.live[r.free[0] := v]))
    case Deallocate(None) => Some(s)
    case Deallocate(Some(a)) => if a in s.live then Some(Stack([a] + s.free, s.blocks, s.live - {a})) else None
  }

  function StackRun<T>(s: Stack<T>, chunkSize: nat, ops: seq<Op<T>>): Option<Stack<T>>
    requires chunkSize > 0
    decreases |ops|
  {
    if ops == [] then Some(s)
    else match StackStep(s, chunkSize, ops[0])
         case None => None
         case Some(t) => StackRun(t, chunkSize, ops[1..])
  }

  /** One block of the initial size, and all others of the chunk size. */
  ghost predicate BlockSizes<T>(m: Memory<T>, preallocate: nat, chunkSize: nat) {
    forall i | 0 <= i < |m| :: |m[i]| == if i == 0 then preallocate else chunkSize
  }

  /** The links of the pool make up the stack, and its memory holds the live objects. */
  ghost predicate Represents<T>(p: Pool<T>, live: map<Addr, T>, s: Stack<T>, preallocate: nat, chunkSize: nat) {
    && Inv(p, s.free, live, preallocate) && live == s.live
    && |p.memory| == s.blocks > 0 && p.chunkSize == chunkSize && BlockSizes(p.memory, preallocate, chunkSize)
  }

  lemma AllocateIsPop<T>(p: Pool<T>, live: map<Addr, T>, s: Stack<T>, preallocate: nat, v: T)
    requires p.chunkSize > 0 && Represents(p, live, s, preallocate, p.chunkSize)
    ensures var r, t := Apply(p, live, Allocate(v)), StackStep(s, p.chunkSize, Allocate(v));
            r.Done? && t.Some? && Represents(r.pool, r.live, t.value, preallocate, p.chunkSize)
  {
    hide Inv, HeadIsLink, Pop;
    AllocateKeeps(p, s.free, live, preallocate, v);
    HeadOfPath(p, s.free, live, preallocate);
    assert NewSlots(s.blocks, p.chunkSize) + [] == NewSlots(s.blocks, p.chunkSize);
    SizesAfterPop(p, preallocate, v);
  }

  lemma HeadOfPath<T>(p: Pool<T>, path: seq<Addr>, live: map<Addr, T>, preallocate: nat)
    requires Inv(p, path, live, preallocate)
    ensures p.free == None <==> path == []
  {
    hide Slots, IsSlot, Read;
  }

  lemma SizesAfterPop<T>(p: Pool<T>, preallocate: nat, v: T)
    requires p.chunkSize > 0 && HeadIsLink(WithRoom(p))
    requires BlockSizes(p.memory, preallocate, p.chunkSize) && |p.memory| > 0
    ensures var q := Pop(WithRoom(p), v);
            && BlockSizes(q.memory, preallocate, p.chunkSize) && q.chunkSize == p.chunkSize
            && |q.memory| == |p.memory| + if p.free.Some? then 0 else 1
  {
    hide Read;
  }

  lemma DeallocateIsPush<T>(p: Pool<T>, live: map<Addr, T>, s: Stack<T>, preallocate: nat, a: Addr)
    requires p.chunkSize > 0 && Represents(p, live, s, preallocate, p.chunkSize) && a in live
    ensures var r, t := Apply(p, live, Deallocate(Some(a))), StackStep(s, p.chunkSize, Deallocate(Some(a)));
            r.Done? && t.Some? && Represents(r.pool, r.live, t.value, preallocate, p.chunkSize)
  {
    hide Inv, IsSlot;
    PushKeeps(p, s.free, live, preallocate, a);
    SizesAfterPush(p, preallocate, a);
  }

  lemma SizesAfterPush<T>(p: Pool<T>, preallocate: nat, a: Addr)
    requires IsSlot(p.memory, a) && BlockSizes(p.memory, preallocate, p.chunkSize)
    ensures BlockSizes(Push(p, a).memory, preallocate, p.chunkSize) && |Push(p, a).memory| == |p.memory|
  {
  }

  lemma StepIsStackStep<T>(p: Pool<T>, live: map<Addr, T>, s: Stack<T>, preallocate: nat, op: Op<T>)
    requires p.chunkSize > 0 && Represents(p, live, s, preallocate, p.chunkSize)
    ensures var r := Apply(p, live, op);
            match StackStep(s, p.chunkSize, op)
            case None => r == Misused
            case Some(t) => r.Done? && Represents(r.pool, r.live, t, preallocate, p.chunkSize)
  {
    hide Inv, IsSlot, HeadIsLink, Pop, Push, WithRoom, Refilled, BlockSizes;
    match op
    case Allocate(v) => AllocateIsPop(p, live, s, preallocate, v);
    case Deallocate(None) =>
    case Deallocate(Some(a)) =>
      if a in live {
        DeallocateIsPush(p, live, s, preallocate, a);
      }
  }

  lemma {:induction false} RunIsStackRun<T>(p: Pool<T>, live: map<Addr, T>, s: Stack<T>, preallocate: nat,
                                            ops: seq<Op<T>>)
    requires p.chunkSize > 0 && Represents(p, live, s, preallocate, p.chunkSize)
    ensures var r := Execute(p, live, ops);
            match StackRun(s, p.chunkSize, ops)
            case None => r == Misused
            case Some(t) => r.Done? && Represents(r.pool, r.live, t, preallocate, p.chunkSize)
    decreases |ops|
  {
    hide Inv, BlockSizes, Apply, StackStep;
    if ops != [] {
      StepIsStackStep(p, live, s, preallocate, ops[0]);
      var t := StackStep(s, p.chunkSize, ops[0]);
      if t.Some? {
        var r := Apply(p, live, ops[0]);
        RunIsStackRun(r.pool, r.live, t.value, preallocate, ops[1..]);
      }
    }
  }

  /**
   Every run of a new pool is the run of a stack: the slots are handed out in order, a slot
   given back is the next one handed out, and the pool grows by a chunk only when no slot is free.
   */
  lemma PoolIsStack<T>(preallocate: nat, chunkSize: nat, ops: seq<Op<T>>)
    requires preallocate > 0 && chunkSize > 0
    ensures var r := Execute(Grow(Empty<T>(preallocate, chunkSize), preallocate), map[], ops);
            var first := Stack(seq(preallocate, i requires 0 <= i < preallocate => Addr(0, i)), 1, map[]);
            match StackRun(first, chunkSize, ops)
            case None => r == Misused
            case Some(t) => r.Done? && Represents(r.pool, r.live, t, preallocate, chunkSize)
  {
    hide Inv, StackRun, Execute;
    EmptyInOrder<T>(preallocate, chunkSize);
    var empty := Empty<T>(preallocate, chunkSize);
    GrowKeeps(empty, [], map[], preallocate, preallocate);
    var free := seq(preallocate, i requires 0 <= i < preallocate => Addr(0, i));
    assert NewSlots(0, preallocate) + [] == free;
    RunIsStackRun(Grow(empty, preallocate), map[], Stack(free, 1, map[]), preallocate, ops);
  }

  // ------------------------------------------------------------- the class

  ghost function Contents<T>(blocks: seq<array<Content<T>>>): (m: Memory<T>)
    reads blocks
    ensures |m| == |blocks|
  {
    seq(|blocks|, i requires 0 <= i < |blocks| reads blocks => blocks[i][..])
  }

  ghost predicate Separate<T>(blocks: seq<array<Content<T>>>) {
    forall i, j | 0 <= i < j < |blocks| :: blocks[i] != blocks[j]
  }

  lemma ContentsSnoc<T>(blocks: seq<array<Content<T>>>, block: array<Content<T>>)
    ensures Contents(blocks + [block]) == Contents(blocks) + [block[..]]
  {
  }

  method Load<T>(blocks: seq<array<Content<T>>>, a: Addr) returns (c: Content<T>)
    requires IsSlot(Contents(blocks), a)
    ensures c == Read(Contents(blocks), a)
  {
    c := blocks[a.block][a.index];
  }

  method Store<T>(blocks: seq<array<Content<T>>>, a: Addr, c: Content<T>)
    requires Separate(blocks) && IsSlot(Contents(blocks), a)
    modifies blocks
    ensures Contents(blocks) == Write(old(Contents(blocks)), a, c)
  {
    var block := blocks[a.block];
    block[a.index] := c;
    assert block[..] == old(block[..])[a.index := c];
    forall i | 0 <= i < |blocks| ensures blocks[i][..] == Write(old(Contents(blocks)), a, c)[i] {
      assert i != a.block ==> blocks[i] != block;
    }
  }

  /** The loop that threads the links through a new block, the last one to the old list. */
  method ThreadChunk<T>(b: nat, n: nat, free: Option<Addr>) returns (memory: array<Content<T>>)
    requires n > 0
    ensures fresh(memory) && memory[..] == Chunk(b, n, free)
  {
    memory := new Content<T>[n](_ => Raw);
    var current := 0;
    for i := 1 to n
      invariant current == i - 1
      invariant forall k | 0 <= k < current :: memory[k] == Link(Some(Addr(b, k + 1)))
    {
      memory[current] := Link(Some(Addr(b, i)));
      current := i;
    }
    memory[current] := Link(free);
  }

  class ObjectPoolNode<T> {
    var freeList: Option<Addr>
    var blocks: seq<array<Content<T>>>
    var chunkSize: nat
    var capacity: nat
    ghost var path: seq<Addr>
    ghost var live: map<Addr, T>
    ghost const preallocate: nat

    ghost function View(): Pool<T>
      reads this, blocks
    {
      Pool(Contents(blocks), freeList, chunkSize, capacity)
    }

    ghost predicate Valid()
      reads this, blocks
    {
      Separate(blocks) && Inv(View(), path, live, preallocate)
    }

    constructor (preallocate: nat, chunkSize: nat)
      requires preallocate > 0 && chunkSize > 0
      ensures Valid() && fresh(blocks) && live == map[] && this.preallocate == preallocate
      ensures View() == Grow(Empty<T>(preallocate, chunkSize), preallocate)
    {
      this.chunkSize, this.capacity := chunkSize, preallocate;
      this.preallocate := preallocate;
      freeList, blocks, path, live := None, [], [], map[];
      new;
      hide Inv, Grow;
      NewPool<T>(View(), preallocate, chunkSize);
      AllocateNewChunk(preallocate);
    }

    method AllocateNewChunk(n: nat)
      requires Valid() && n > 0
      modifies this
      ensures Valid() && View() == Grow(old(View()), n) && live == old(live)
      ensures path == NewSlots(|old(View()).memory|, n) + old(path)
      ensures |blocks| > 0 && blocks[..|blocks| - 1] == old(blocks) && fresh(blocks[|blocks| - 1])
    {
      hide Inv, Contents, Chunk;
      GrowKeeps(View(), path, live, preallocate, n);
      var b := |blocks|;
      var memory := ThreadChunk<T>(b, n, freeList);
      ContentsSnoc(blocks, memory);
      path := NewSlots(b, n) + path;
      blocks := blocks + [memory];
      freeList := Some(Addr(b, 0));
      capacity := capacity + n;
    }

    method Allocate(v: T) returns (a: Addr)
      requires Valid()
      modifies this, blocks
      ensures Valid() && a !in old(live) && live == old(live)[a := v]
      ensures HeadIsLink(WithRoom(old(View()))) && View() == Pop(WithRoom(old(View())), v)
      ensures forall x | x in blocks :: x in old(blocks) || fresh(x)
    {
      hide Inv, Contents, Chunk, IsSlot, Read, Write;
      AllocateKeeps(View(), path, live, preallocate, v);
      if freeList == None {
        AllocateNewChunk(chunkSize);
      }
      a := freeList.value;
      var head := Load(blocks, a);
      freeList := head.next;
      Store(blocks, a, Object(v));
      path, live := path[1..], live[a := v];
    }

    /** The caller gives back a live object, or a null pointer. */
    method Deallocate(ptr: Option<Addr>)
      requires Valid() && (ptr.Some? ==> ptr.value in live)
      modifies this, blocks
      ensures Valid() && blocks == old(blocks)
      ensures live == if ptr.Some? then old(live) - {ptr.value} else old(live)
      ensures ptr == None ==> View() == old(View())
      ensures ptr.Some? ==> IsSlot(old(View()).memory, ptr.value) && View() == Push(old(View()), ptr.value)
    {
      hide Inv, Contents, IsSlot, Read, Write;
      if ptr == None {
        return;
      }
      var a := ptr.value;
      PushKeeps(View(), path, live, preallocate, a);
      Store(blocks, a, Link(freeList));
      freeList := Some(a);
      path, live := [a] + path, live - {a};
    }
  }
}
