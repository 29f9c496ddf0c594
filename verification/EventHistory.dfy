/** Event handles over runs: what a block holds is what was last written to it through any of its
    handles, and that is what is posted and cancelled. */
module EventHistory {
  import opened Machine
  import opened EventHandles

  /** What the members of Event can set in a block. */
  datatype Field = DelayOf | PeriodOf | IdOf | FunctorOf

  function Get(b: Block, k: Field): int {
    match k
    case DelayOf => b.delay
    case PeriodOf => b.period
    case IdOf => b.id
    case FunctorOf => b.functor
  }

  /** The block that an operation writes to, or null. */
  function Through(s: State, op: Op): Pointer
    requires Enabled(s, op)
  {
    match op
    case Construct(_, memory, _) => memory
    case Delay(h, _) => s.handles[h]
    case Period(h, _) => s.handles[h]
    case Post(h, _, _, _) => s.handles[h]
    case _ => 0
  }

  /** What an operation sets: a new event has no delay, no period and no id; the id is the one that
      the post returns. */
  function Given(op: Op, k: Field): Option<int> {
    match op
    case Construct(_, _, f) => Some(match k case DelayOf => 0 case PeriodOf => -1 case IdOf => 0 case FunctorOf => f)
    case Delay(_, ms) => if k == DelayOf then Some(ms) else None
    case Period(_, ms) => if k == PeriodOf then Some(ms) else None
    case Post(_, _, memory, queued) => if k == IdOf then Some(if memory == 0 then 0 else queued) else None
    case _ => None
  }

  /** Operation i of the run sets the field of the block, through whichever handle. */
  predicate SetAt(ops: seq<Op>, i: nat, p: Pointer, k: Field)
    requires i < |ops|
  {
    var before := Run(ops[..i]);
    before.Done? && Enabled(before.s, ops[i]) && Through(before.s, ops[i]) == p && Given(ops[i], k).Some?
  }

  /** Operation i is the last one that does. */
  predicate LastSetAt(ops: seq<Op>, i: nat, p: Pointer, k: Field)
    requires i < |ops|
  {
    SetAt(ops, i, p, k) && forall j :: i < j < |ops| ==> !SetAt(ops, j, p, k)
  }

  lemma OneOperation(s: State, op: Op, p: Pointer, k: Field)
    requires Enabled(s, op) && Step(s, op).Done? && p != 0
    ensures p in Step(s, op).s.blocks ==>
              if Through(s, op) == p && Given(op, k).Some? then Get(Step(s, op).s.blocks[p], k) == Given(op, k).value
              else p in s.blocks && Get(Step(s, op).s.blocks[p], k) == Get(s.blocks[p], k)
  {
  }

  lemma LastOperation(ops: seq<Op>, p: Pointer, k: Field)
    requires ops != [] && p != 0
    ensures var n := |ops| - 1;
      && Run(ops).Done? && Run(ops[..n]).Done?
      && (p in Run(ops).s.blocks ==>
            if SetAt(ops, n, p, k) then Get(Run(ops).s.blocks[p], k) == Given(ops[n], k).value
            else p in Run(ops[..n]).s.blocks && Get(Run(ops).s.blocks[p], k) == Get(Run(ops[..n]).s.blocks[p], k))
  {
    EveryRun(ops);
    EveryRun(ops[..|ops| - 1]);
    var before := Run(ops[..|ops| - 1]).s;
    if Enabled(before, ops[|ops| - 1]) {
      OneOperation(before, ops[|ops| - 1], p, k);
    }
  }

  /** A field of a live block is what the last operation that set it gave. */
  lemma {:induction false} FieldIsLastSet(ops: seq<Op>, i: nat, p: Pointer, k: Field)
    requires i < |ops| && p != 0 && LastSetAt(ops, i, p, k)
    ensures Run(ops).Done?
    ensures p in Run(ops).s.blocks ==> Get(Run(ops).s.blocks[p], k) == Given(ops[i], k).value
    decreases |ops|
  {
    var n := |ops| - 1;
    LastOperation(ops, p, k);
    if i < n {
      assert !SetAt(ops, n, p, k);
      forall j | i <= j < n
        ensures SetAt(ops[..n], j, p, k) == SetAt(ops, j, p, k)
      {
        assert ops[..n][..j] == ops[..j];
      }
      FieldIsLastSet(ops[..n], i, p, k);
    }
  }

  /** There always is such an operation, if only the construction. */
  lemma {:induction false} SetOnce(ops: seq<Op>, p: Pointer, k: Field) returns (i: nat)
    requires Run(ops).Done? && p != 0 && p in Run(ops).s.blocks
    ensures i < |ops| && LastSetAt(ops, i, p, k)
    decreases |ops|
  {
    var n := |ops| - 1;
    LastOperation(ops, p, k);
    if SetAt(ops, n, p, k) {
      return n;
    }
    i := SetOnce(ops[..n], p, k);
    forall j | 0 <= j < n
      ensures SetAt(ops[..n], j, p, k) == SetAt(ops, j, p, k)
    {
      assert ops[..n][..j] == ops[..j];
    }
  }

  /** The handle is on a block. */
  predicate Live(ops: seq<Op>, h: Address) {
    Run(ops).Done? && h in Run(ops).s.handles && Run(ops).s.handles[h] != 0
  }

  lemma LiveBlock(ops: seq<Op>, h: Address)
    requires Live(ops, h)
    ensures Usable(Run(ops).s, h) && Run(ops).s.handles[h] in Run(ops).s.blocks
  {
    EveryRun(ops);
  }

  /** A post hands the queue the delay of the last delay(ms), and the period of the last period(ms),
      that was made through any handle on its block since the construction, 0 and -1 if there was
      none, with the functor of the construction and the arguments of the post. */
  lemma PostedAsSet(ops: seq<Op>, h: Address, args: seq<int>, memory: Pointer, d: nat, r: nat, f: nat)
    requires Live(ops, h) && memory != 0 && d < |ops| && r < |ops| && f < |ops|
    requires var p := Run(ops).s.handles[h];
      LastSetAt(ops, d, p, DelayOf) && LastSetAt(ops, r, p, PeriodOf) && LastSetAt(ops, f, p, FunctorOf)
    ensures Usable(Run(ops).s, h) && ops[f].Construct?
    ensures PostedBy(Run(ops).s, h, args, memory)
         == Some(Posted(memory, ops[f].f, args, if ops[d].Delay? then ops[d].ms else 0,
                        if ops[r].Period? then ops[r].ms else -1, Some(ops[f].f)))
  {
    LiveBlock(ops, h);
    var p := Run(ops).s.handles[h];
    FieldIsLastSet(ops, d, p, DelayOf);
    FieldIsLastSet(ops, r, p, PeriodOf);
    FieldIsLastSet(ops, f, p, FunctorOf);
  }

  /** cancel() names the last post through any handle on the block, by the id that this post
      returned; 0, which names nothing, if there was none or it found no memory. */
  lemma CancelsLastPost(ops: seq<Op>, h: Address, i: nat)
    requires Live(ops, h) && i < |ops| && LastSetAt(ops, i, Run(ops).s.handles[h], IdOf)
    ensures Usable(Run(ops).s, h)
    ensures CancelledBy(Run(ops).s, h) == Some(if ops[i].Post? && ops[i].memory != 0 then ops[i].queued else 0)
  {
    LiveBlock(ops, h);
    FieldIsLastSet(ops, i, Run(ops).s.handles[h], IdOf);
  }
}
