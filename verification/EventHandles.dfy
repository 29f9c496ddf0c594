/** Event handles: hand-written reference counting on control blocks. */
module EventHandles {
  import opened Machine

  /** Addresses of a 32-bit machine; 0 is the null pointer. */
  type Address = a: nat | 1 <= a < 0x1_0000_0000 witness 1
  type Pointer = a: nat | a < 0x1_0000_0000

  /** What is called when an event is dispatched, with everything that is bound in it. */
  type Functor = nat

  /** struct event, with the functor that follows it. */
  datatype Block = Block(ref: uint32, id: int, delay: int, period: int, functor: Functor)

  /** What happens to control block memory. */
  datatype Action = Allocated(p: Pointer) | Destructed(p: Pointer) | Deallocated(p: Pointer)

  /** handles: the live Event objects and their _event; blocks: the allocated control blocks. */
  datatype State = State(handles: map<Address, Pointer>, blocks: map<Pointer, Block>, trace: seq<Action>)

  const EMPTY := State(map[], map[], [])

  /** ref arithmetic of an unsigned int */
  function Incremented(ref: uint32): uint32 {
    (ref + 1) % 0x1_0000_0000
  }

  function Decremented(ref: uint32): uint32 {
    (ref + 0xFFFF_FFFF) % 0x1_0000_0000
  }

  // ----- the operations as functions on memory

  /** Event(q, f), where the allocator returned memory, or null. */
  function Constructed(s: State, h: Address, memory: Pointer, f: Functor): State {
    if memory == 0 then s.(handles := s.handles[h := 0])
    else State(s.handles[h := memory], s.blocks[memory := Block(1, 0, 0, -1, f)], s.trace + [Allocated(memory)])
  }

  /** Using the block of a handle is defined: null, which is tested, or allocated memory. */
  predicate Usable(s: State, h: Address)
    requires h in s.handles
  {
    s.handles[h] != 0 ==> s.handles[h] in s.blocks
  }

  function Copied(s: State, h: Address, e: Address): State
    requires e in s.handles && Usable(s, e)
  {
    var p := s.handles[e];
    if p == 0 then s.(handles := s.handles[h := 0])
    else
      var b := s.blocks[p];
      s.(handles := s.handles[h := p], blocks := s.blocks[p := b.(ref := Incremented(b.ref))])
  }

  function Destroyed(s: State, h: Address): State
    requires h in s.handles && Usable(s, h)
  {
    var p, rest := s.handles[h], s.handles - {h};
    if p == 0 then s.(handles := rest)
    else
      var b := s.blocks[p].(ref := Decremented(s.blocks[p].ref));
      if b.ref == 0 then State(rest, s.blocks - {p}, s.trace + [Destructed(p), Deallocated(p)])
      else s.(handles := rest, blocks := s.blocks[p := b])
  }

  /** delay, period and post write to the shared block, if there is one. */
  function Updated(s: State, h: Address, f: Block -> Block): State
    requires h in s.handles && Usable(s, h)
  {
    var p := s.handles[h];
    if p == 0 then s else s.(blocks := s.blocks[p := f(s.blocks[p])])
  }

  // ----- conservation

  ghost function Holders(s: State, p: Pointer): set<Address> {
    set h | h in s.handles && s.handles[h] == p
  }

  /** Where a piece of memory stands in its life, read off the trace. */
  datatype Life = Free | Held | Dying | Wrong

  function LifeAfter(life: Life, a: Action): Life {
    match (life, a)
    case (Free, Allocated(_)) => Held
    case (Held, Destructed(_)) => Dying
    case (Dying, Deallocated(_)) => Free
    case _ => Wrong
  }

  function LifeOf(trace: seq<Action>, p: Pointer): Life {
    if trace == [] then Free
    else
      var last, before := trace[|trace| - 1], LifeOf(trace[..|trace| - 1], p);
      if last.p == p then LifeAfter(before, last) else before
  }

  /** The reference count of every block is the number of live handles on it, which is never
      zero, and every block of memory has gone through whole lives only. */
  ghost predicate Inv(s: State) {
    && (forall h :: h in s.handles ==> Usable(s, h))
    && 0 !in s.blocks
    && (forall p :: p in s.blocks ==> s.blocks[p].ref == |Holders(s, p)| > 0)
    && (forall p: Pointer :: LifeOf(s.trace, p) == if p in s.blocks then Held else Free)
  }

  lemma {:induction false} RangeSize(s: set<nat>, n: nat)
    requires forall x :: x in s ==> 1 <= x < n
    ensures |s| <= if n == 0 then 0 else n - 1
    decreases n
  {
    if n > 1 {
      var rest := s - {n - 1};
      RangeSize(rest, n - 1);
      assert n - 1 in s ==> s == rest + {n - 1};
    } else {
      assert s == {};
    }
  }

  /** More handles than the counter can count do not fit into the address space. */
  lemma HoldersFit(s: State, p: Pointer)
    ensures |Holders(s, p)| < 0x1_0000_0000
  {
    ghost var all: set<nat> := Holders(s, p);
    RangeSize(all, 0x1_0000_0000);
  }

  lemma LifeOneMore(trace: seq<Action>, a: Action, p: Pointer)
    ensures LifeOf(trace + [a], p) == if a.p == p then LifeAfter(LifeOf(trace, p), a) else LifeOf(trace, p)
  {
    assert (trace + [a])[..|trace|] == trace;
  }

  lemma ConstructedKeeps(s: State, h: Address, memory: Pointer, f: Functor)
    requires Inv(s) && h !in s.handles && (memory != 0 ==> memory !in s.blocks)
    ensures Inv(Constructed(s, h, memory, f))
  {
    var t := Constructed(s, h, memory, f);
    forall p: Pointer
      ensures LifeOf(t.trace, p) == if p in t.blocks then Held else Free
    {
      LifeOneMore(s.trace, Allocated(memory), p);
    }
    forall p | p in t.blocks
      ensures t.blocks[p].ref == |Holders(t, p)| > 0
    {
      if p == memory {
        assert Holders(t, p) == {h};
      } else {
        assert Holders(t, p) == Holders(s, p);
      }
    }
  }

  lemma CopiedKeeps(s: State, h: Address, e: Address)
    requires Inv(s) && h !in s.handles && e in s.handles
    ensures Inv(Copied(s, h, e))
    ensures s.handles[e] != 0 ==> Copied(s, h, e).blocks[s.handles[e]].ref == s.blocks[s.handles[e]].ref + 1
  {
    var t := Copied(s, h, e);
    forall p | p in t.blocks
      ensures t.blocks[p].ref == |Holders(t, p)| > 0
      ensures p == s.handles[e] ==> t.blocks[p].ref == s.blocks[p].ref + 1
    {
      CopiedCount(s, h, e, p);
    }
  }

  lemma CopiedCount(s: State, h: Address, e: Address, p: Pointer)
    requires h !in s.handles && e in s.handles && Usable(s, e)
    requires p != 0 && p in s.blocks && s.blocks[p].ref == |Holders(s, p)| > 0
    ensures Copied(s, h, e).blocks[p].ref == |Holders(Copied(s, h, e), p)| > 0
    ensures p == s.handles[e] ==> Copied(s, h, e).blocks[p].ref == s.blocks[p].ref + 1
  {
    var t := Copied(s, h, e);
    HoldersFit(t, p);
    if p == s.handles[e] {
      assert Holders(t, p) == Holders(s, p) + {h};
    } else {
      assert Holders(t, p) == Holders(s, p);
    }
  }

  /** The block is released, its functor destructed first, exactly when the last handle on it
      dies; until then only its count changes. */
  lemma DestroyedKeeps(s: State, h: Address)
    requires Inv(s) && h in s.handles
    ensures Inv(Destroyed(s, h))
    ensures Destroyed(s, h).handles == s.handles - {h}
    ensures var p := s.handles[h];
            if p != 0 && Holders(s, p) == {h}
            then Destroyed(s, h).trace == s.trace + [Destructed(p), Deallocated(p)] && Destroyed(s, h).blocks == s.blocks - {p}
            else Destroyed(s, h).trace == s.trace && Destroyed(s, h).blocks.Keys == s.blocks.Keys
  {
    var t, q := Destroyed(s, h), s.handles[h];
    if q != 0 {
      assert h in Holders(s, q);
      assert Holders(t, q) == Holders(s, q) - {h};
      assert Holders(s, q) == {h} <==> Holders(t, q) == {};
    }
    forall p: Pointer
      ensures LifeOf(t.trace, p) == if p in t.blocks then Held else Free
    {
      LifeOneMore(s.trace, Destructed(q), p);
      LifeOneMore(s.trace + [Destructed(q)], Deallocated(q), p);
      assert s.trace + [Destructed(q)] + [Deallocated(q)] == s.trace + [Destructed(q), Deallocated(q)];
    }
    forall p | p in t.blocks
      ensures t.blocks[p].ref == |Holders(t, p)| > 0
    {
      if p != q {
        assert Holders(t, p) == Holders(s, p);
      }
    }
    forall g | g in t.handles
      ensures Usable(t, g)
    {
      assert Usable(s, g);
      if q != 0 && t.handles[g] == q {
        assert g in Holders(t, q);
        assert |Holders(t, q)| == |Holders(s, q)| - 1;
      }
    }
  }

  /** Assignment to another object makes it share the block assigned from; between two handles
      on one block it changes nothing at all. */
  lemma AssignedKeeps(s: State, h: Address, that: Address)
    requires Inv(s) && h in s.handles && that in s.handles && h != that
    ensures Usable(Destroyed(s, h), that)
    ensures var t := Copied(Destroyed(s, h), h, that);
            && Inv(t)
            && t.handles == s.handles[h := s.handles[that]]
            && (s.handles[h] == s.handles[that] ==> t == s)
  {
    DestroyedKeeps(s, h);
    CopiedKeeps(Destroyed(s, h), h, that);
    var t, p := Copied(Destroyed(s, h), h, that), s.handles[that];
    if p != 0 && s.handles[h] == p {
      assert {h, that} <= Holders(s, p);
      assert that !in {h} && that in Holders(s, p);
      assert t.handles == s.handles;
      assert t.blocks == s.blocks;
    }
  }

  lemma UpdatedKeeps(s: State, h: Address, f: Block -> Block)
    requires Inv(s) && h in s.handles && forall b: Block :: f(b).ref == b.ref
    ensures Inv(Updated(s, h, f))
  {
    var t := Updated(s, h, f);
    forall p | p in t.blocks
      ensures t.blocks[p].ref == |Holders(t, p)| > 0
    {
      assert Holders(t, p) == Holders(s, p);
    }
    forall g | g in t.handles
      ensures Usable(t, g)
    {
      assert Usable(s, g);
    }
  }

  // ----- runs

  datatype Op =
    | Construct(h: Address, memory: Pointer, f: Functor)
    | Copy(h: Address, e: Address)
    | Destroy(h: Address)
    | Assign(h: Address, that: Address)
    | Delay(h: Address, ms: int)
    | Period(h: Address, ms: int)
    | Post(h: Address, args: seq<int>, memory: Pointer, queued: int)

  /** The C++ program builds objects in unused storage and touches live objects only; the
      allocator hands out memory that is not in use, or null. */
  predicate Enabled(s: State, op: Op) {
    match op
    case Construct(h, memory, _) => h !in s.handles && (memory != 0 ==> memory !in s.blocks)
    case Copy(h, e) => h !in s.handles && e in s.handles
    case Assign(h, that) => h in s.handles && that in s.handles
    case _ => op.h in s.handles
  }

  /** Fault: released memory was used. */
  datatype Outcome = Done(s: State) | Fault

  function Step(s: State, op: Op): Outcome
    requires Enabled(s, op)
  {
    match op
    case Construct(h, memory, f) => Done(Constructed(s, h, memory, f))
    case Copy(h, e) => if Usable(s, e) then Done(Copied(s, h, e)) else Fault
    case Destroy(h) => if Usable(s, h) then Done(Destroyed(s, h)) else Fault
    case Assign(h, that) =>
      if h == that then Done(s)
      else if !Usable(s, h) then Fault
      else if !Usable(Destroyed(s, h), that) then Fault
      else Done(Copied(Destroyed(s, h), h, that))
    case Delay(h, ms) => if Usable(s, h) then Done(Updated(s, h, (b: Block) => b.(delay := ms))) else Fault
    case Period(h, ms) => if Usable(s, h) then Done(Updated(s, h, (b: Block) => b.(period := ms))) else Fault
    case Post(h, _, memory, queued) =>
      if Usable(s, h) then Done(Updated(s, h, (b: Block) => b.(id := if memory == 0 then 0 else queued))) else Fault
  }

  /** What a post hands to the queue: a context with a copy of the functor and the arguments, the
      delay and the period of the block, and the functor that is destructed with the context; if the
      handle has a block and the queue has memory for the context. */
  datatype Posted = Posted(memory: Pointer, functor: Functor, args: seq<int>, delay: int, period: int, destructs: Option<Functor>)

  function PostedBy(s: State, h: Address, args: seq<int>, memory: Pointer): Option<Posted>
    requires h in s.handles && Usable(s, h)
  {
    var p := s.handles[h];
    if p == 0 || memory == 0 then None
    else
      var b := s.blocks[p];
      Some(Posted(memory, b.functor, args, b.delay, b.period, Some(b.functor)))
  }

  /** The id that cancel hands to the queue, if the handle has a block. */
  function CancelledBy(s: State, h: Address): Option<int>
    requires h in s.handles && Usable(s, h)
  {
    if s.handles[h] == 0 then None else Some(s.blocks[s.handles[h]].id)
  }

  /** Whatever is done to the handles on a block, it keeps the functor that it was constructed with, so
      that is what every post of it calls. */
  lemma FunctorKept(s: State, op: Op, p: Pointer)
    requires Inv(s) && Enabled(s, op) && p in s.blocks
    ensures Step(s, op).Done?
    ensures p in Step(s, op).s.blocks ==> Step(s, op).s.blocks[p].functor == s.blocks[p].functor
  {
    StepKeeps(s, op);
  }

  lemma StepKeeps(s: State, op: Op)
    requires Inv(s) && Enabled(s, op)
    ensures Step(s, op).Done? && Inv(Step(s, op).s)
  {
    match op
    case Construct(h, memory, f) => ConstructedKeeps(s, h, memory, f);
    case Copy(h, e) => CopiedKeeps(s, h, e);
    case Destroy(h) => DestroyedKeeps(s, h);
    case Assign(h, that) => if h != that { AssignedKeeps(s, h, that); }
    case Delay(h, ms) => UpdatedKeeps(s, h, (b: Block) => b.(delay := ms));
    case Period(h, ms) => UpdatedKeeps(s, h, (b: Block) => b.(period := ms));
    case Post(h, _, memory, queued) => UpdatedKeeps(s, h, (b: Block) => b.(id := if memory == 0 then 0 else queued));
  }

  /** The run of ops from empty memory; an operation that is not enabled is passed over. */
  function Run(ops: seq<Op>): Outcome {
    if ops == [] then Done(EMPTY)
    else
      var before := Run(ops[..|ops| - 1]);
      if before.Done? && Enabled(before.s, ops[|ops| - 1]) then Step(before.s, ops[|ops| - 1]) else before
  }

  /** No run ever uses released memory; at every moment each block's count is the number of
      handles on it and all memory has lived whole lives; when no handle is left, every block
      that was ever allocated has been released exactly once per allocation. */
  lemma {:induction false} EveryRun(ops: seq<Op>)
    ensures Run(ops).Done? && Inv(Run(ops).s)
    ensures Run(ops).s.handles == map[] ==>
              Run(ops).s.blocks == map[] && forall p: Pointer :: LifeOf(Run(ops).s.trace, p) == Free
    decreases |ops|
  {
    if ops == [] {
      assert Inv(EMPTY);
    } else {
      EveryRun(ops[..|ops| - 1]);
      var before := Run(ops[..|ops| - 1]).s;
      if Enabled(before, ops[|ops| - 1]) {
        StepKeeps(before, ops[|ops| - 1]);
      }
    }
    if Run(ops).s.handles == map[] {
      forall p: Pointer
        ensures p !in Run(ops).s.blocks
      {
        BlockHasHandle(Run(ops).s, p);
      }
    }
  }

  lemma BlockHasHandle(s: State, p: Pointer)
    requires Inv(s)
    ensures p in s.blocks ==> exists h :: h in s.handles && s.handles[h] == p
  {
    if p in s.blocks {
      assert Holders(s, p) != {};
      var h :| h in Holders(s, p);
    }
  }

  /** Copying a handle and destroying the copy changes nothing. */
  lemma CopyThenDestroy(s: State, h: Address, e: Address)
    requires Inv(s) && h !in s.handles && e in s.handles
    ensures Usable(Copied(s, h, e), h)
    ensures Destroyed(Copied(s, h, e), h) == s
  {
    CopiedKeeps(s, h, e);
    var t := Copied(s, h, e);
    var u := Destroyed(t, h);
    assert t.handles - {h} == s.handles;
    if s.handles[e] != 0 {
      assert u.blocks == s.blocks;
    }
  }

  // ----- the code

  /** The memory of the program, written to in place by the members of Event. */
  class EventMemory {
    var handles: map<Address, Pointer>
    var blocks: map<Pointer, Block>
    ghost var trace: seq<Action>

    ghost function Now(): State
      reads this
    {
      State(handles, blocks, trace)
    }

    constructor ()
      ensures Now() == EMPTY
    {
      handles, blocks, trace := map[], map[], [];
    }

    /** Event(q, f), with the memory that equeue_alloc returns */
    method ConstructEvent(h: Address, memory: Pointer, f: Functor)
      requires Enabled(Now(), Construct(h, memory, f))
      modifies this
      ensures Done(Now()) == Step(old(Now()), Construct(h, memory, f))
    {
      handles := handles[h := memory];
      if memory != 0 {
        trace := trace + [Allocated(memory)];
        blocks := blocks[memory := Block(0, 0, 0, -1, f)];
        blocks := blocks[memory := blocks[memory].(ref := 1)];
      }
    }

    /** Event(e) */
    method CopyEvent(h: Address, e: Address)
      requires Inv(Now()) && Enabled(Now(), Copy(h, e))
      modifies this
      ensures Done(Now()) == Step(old(Now()), Copy(h, e))
    {
      assert Usable(Now(), e);
      handles := handles[h := 0];
      if handles[e] != 0 {
        handles := handles[h := handles[e]];
        var b := blocks[handles[h]];
        blocks := blocks[handles[h] := b.(ref := Incremented(b.ref))];
      }
    }

    /** ~Event() */
    method DestroyEvent(h: Address)
      requires Inv(Now()) && Enabled(Now(), Destroy(h))
      modifies this
      ensures Done(Now()) == Step(old(Now()), Destroy(h))
    {
      assert Usable(Now(), h);
      var p := handles[h];
      if p != 0 {
        var b := blocks[p];
        blocks := blocks[p := b.(ref := Decremented(b.ref))];
        if blocks[p].ref == 0 {
          trace := trace + [Destructed(p), Deallocated(p)];
          blocks := blocks - {p};
        }
      }
      handles := handles - {h};
    }

    /** operator= */
    method AssignEvent(h: Address, that: Address)
      requires Inv(Now()) && Enabled(Now(), Assign(h, that))
      modifies this
      ensures Done(Now()) == Step(old(Now()), Assign(h, that))
    {
      if h != that {
        DestroyedKeeps(Now(), h);
        AssignedKeeps(Now(), h, that);
        DestroyEvent(h);
        CopyEvent(h, that);
      }
    }

    /** delay(ms) */
    method DelayEvent(h: Address, ms: int)
      requires Inv(Now()) && Enabled(Now(), Delay(h, ms))
      modifies this
      ensures Done(Now()) == Step(old(Now()), Delay(h, ms))
    {
      assert Usable(Now(), h);
      if handles[h] != 0 {
        blocks := blocks[handles[h] := blocks[handles[h]].(delay := ms)];
      }
    }

    /** period(ms) */
    method PeriodEvent(h: Address, ms: int)
      requires Inv(Now()) && Enabled(Now(), Period(h, ms))
      modifies this
      ensures Done(Now()) == Step(old(Now()), Period(h, ms))
    {
      assert Usable(Now(), h);
      if handles[h] != 0 {
        blocks := blocks[handles[h] := blocks[handles[h]].(period := ms)];
      }
    }

    /** post(), with the memory that equeue_alloc returns for the context and the id that
        equeue_post gives it; a null handle posts nothing */
    method PostEvent(h: Address, args: seq<int>, memory: Pointer, queued: int) returns (id: int, posted: Option<Posted>)
      requires Inv(Now()) && Enabled(Now(), Post(h, args, memory, queued))
      modifies this
      ensures Done(Now()) == Step(old(Now()), Post(h, args, memory, queued))
      ensures Usable(old(Now()), h) && posted == PostedBy(old(Now()), h, args, memory)
      ensures id == if posted.None? then 0 else queued
    {
      assert Usable(Now(), h);
      if handles[h] == 0 {
        return 0, None;
      }
      id, posted := PostContext(blocks[handles[h]], args, memory, queued);
      blocks := blocks[handles[h] := blocks[handles[h]].(id := id)];
    }

    /** cancel(), up to the call of equeue_cancel */
    method CancelEvent(h: Address) returns (cancelled: Option<int>)
      requires Inv(Now()) && h in handles
      ensures Usable(Now(), h) && cancelled == CancelledBy(Now(), h)
    {
      assert Usable(Now(), h);
      cancelled := None;
      if handles[h] != 0 {
        cancelled := Some(blocks[handles[h]].id);
      }
    }

    /** event_post */
    static method PostContext(e: Block, args: seq<int>, memory: Pointer, queued: int) returns (id: int, posted: Option<Posted>)
      ensures posted == if memory == 0 then None
                        else Some(Posted(memory, e.functor, args, e.delay, e.period, Some(e.functor)))
      ensures id == if memory == 0 then 0 else queued
    {
      if memory == 0 {
        return 0, None;
      }
      var context := Posted(memory, e.functor, args, 0, -1, None);
      context := context.(delay := e.delay);
      context := context.(period := e.period);
      context := context.(destructs := Some(e.functor));
      return queued, Some(context);
    }
  }
}
