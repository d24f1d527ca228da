/** Why saturation does not happen on a real heap: live blocks do not overlap, so
    their weights are bounded by the address space times the largest sample rate
    `update_config` admits (crates/backend/src/memory_profiler.rs). */
module ProfilerBounds {
  import opened Basics
  import opened FiniteSums
  import opened Profiler
  import opened ProfilerAgreement

  const MAX_RATE: nat := 10_000

  /** User addresses take 47 bits. */
  const TOP: nat := 0x8000_0000_0000

  function Share(heap: map<Ptr, nat>, ptr: Ptr): nat {
    if ptr in heap then heap[ptr] * MAX_RATE else 0
  }

  /** Live blocks do not overlap and end at or before `top`. */
  ghost predicate Packed(heap: map<Ptr, nat>, top: nat) {
    && (forall p :: p in heap ==> p + heap[p] <= top)
    && (forall p, q :: p in heap && q in heap && p < q ==> p + heap[p] <= q)
  }

  lemma {:induction false} Highest(s: set<nat>) returns (m: nat)
    requires s != {}
    ensures m in s && forall x :: x in s ==> x <= m
    decreases s
  {
    var x :| x in s;
    if s == {x} {
      m := x;
    } else {
      var n := Highest(s - {x});
      m := Max(n, x);
      assert forall y :: y in s ==> y == x || y in s - {x};
    }
  }

  /** Blocks that do not overlap have no more bytes together than there are addresses. */
  lemma {:induction false} PackedFits(heap: map<Ptr, nat>, top: nat)
    requires Packed(heap, top)
    ensures Sum(heap.Keys, p => Share(heap, p)) <= top * MAX_RATE
    decreases |heap|
  {
    if heap != map[] {
      assert heap.Keys != {};
      var last := Highest(heap.Keys);
      BelowLast(heap, top, last);
      PackedFits(heap - {last}, last);
      ShareTake(heap, last);
    }
  }

  lemma BelowLast(heap: map<Ptr, nat>, top: nat, last: Ptr)
    requires Packed(heap, top) && last in heap && forall p :: p in heap ==> p <= last
    ensures Packed(heap - {last}, last) && last + heap[last] <= top && |heap - {last}| < |heap|
  {
    var rest := heap - {last};
    assert rest.Keys == heap.Keys - {last} && |heap| == |heap.Keys| && |rest| == |rest.Keys|;
  }

  lemma ShareTake(heap: map<Ptr, nat>, last: Ptr)
    requires last in heap
    ensures Sum(heap.Keys, p => Share(heap, p))
         == heap[last] * MAX_RATE + Sum((heap - {last}).Keys, p => Share(heap - {last}, p))
  {
    var rest := heap - {last};
    assert rest.Keys == heap.Keys - {last};
    SumTake(heap.Keys, p => Share(heap, p), last);
    SumSame(rest.Keys, p => Share(heap, p), p => Share(rest, p));
  }

  /** Every tracked pointer is a live block and weighs no more than its share. */
  ghost predicate Weighed(s: System) {
    forall p :: p in s.profile.allocations ==> p in s.heap && s.profile.allocations[p].weight <= Share(s.heap, p)
  }

  lemma LiveBytesBounded(s: System, k: Stack)
    requires Packed(s.heap, TOP) && Weighed(s)
    ensures LiveBytes(s.profile.allocations, k) <= TOP * MAX_RATE
  {
    PackedFits(s.heap, TOP);
    SumGrows(s.profile.allocations.Keys, s.heap.Keys,
             p => WeightOn(s.profile.allocations, k, p), p => Share(s.heap, p));
  }

  ghost predicate CountsBelow(p: Profile, n: nat) {
    forall k :: k in p.stacks ==> p.stacks[k].allocCount <= n
  }

  predicate RateCapped(p: Profile) {
    p.config.sampleRate <= MAX_RATE
  }

  /** What holds after `n` calls. */
  ghost predicate Bounded(s: System, n: nat) {
    && Agrees(s.profile) && Packed(s.heap, TOP) && Weighed(s) && TracksLive(s)
    && CountsBelow(s.profile, n) && RateCapped(s.profile)
  }

  /** The blocks a call hands out lie below the top of the address space. */
  predicate Placed(op: Op) {
    match op
    case Alloc(ptr, usable, _) => ptr + usable <= TOP
    case Realloc(_, newPtr, usable, _) => newPtr + usable <= TOP
    case _ => true
  }

  // ---- Recording --------------------------------------------------------------------

  /** Any block below the top fits. */
  lemma BlockFits(s: System, stack: Stack, ptr: Ptr, usable: nat, n: nat)
    requires Packed(s.heap, TOP) && Weighed(s) && Agrees(s.profile) && CountsBelow(s.profile, n) && n < U64_MAX
    requires RateCapped(s.profile) && usable <= TOP && ptr !in s.profile.allocations
    ensures RecordFits(s.profile, ptr, usable, stack)
  {
    LiveBytesBounded(s, stack);
    assert EntryAgrees(s.profile, stack);
    WeightBounded(s.profile, usable);
    assert usable * MAX_RATE <= TOP * MAX_RATE;
  }

  lemma WeightBounded(p: Profile, usable: nat)
    requires RateCapped(p)
    ensures Weight(p, usable) <= usable * MAX_RATE
  {
    TimesGrows(Max(p.config.sampleRate, 1), MAX_RATE, usable);
  }

  lemma RecordedBounded(p: Profile, ptr: Ptr, usable: nat, stack: Stack, n: nat)
    requires CountsBelow(p, n) && ptr !in p.allocations && RateCapped(p)
    ensures var q := Recorded(p, ptr, usable, stack);
            && CountsBelow(q, n + 1) && q.config == p.config
            && (forall x :: x in q.allocations ==>
                  if x == ptr then q.allocations[x].weight <= usable * MAX_RATE
                  else x in p.allocations && q.allocations[x] == p.allocations[x])
  {
    WeightBounded(p, usable);
  }

  lemma PackedWith(heap: map<Ptr, nat>, ptr: Ptr, usable: nat)
    requires Packed(heap, TOP) && Clear(heap, ptr, usable) && ptr + usable <= TOP
    ensures Packed(heap[ptr := usable], TOP)
  {
  }

  /** What recording in a system keeps, apart from agreement and packing. */
  lemma EnteredBounded(s: System, ptr: Ptr, usable: nat, stack: Stack, n: nat)
    requires Weighed(s) && CountsBelow(s.profile, n) && RateCapped(s.profile) && ptr !in s.profile.allocations
    ensures var q := Recorded(s.profile, ptr, usable, stack);
            Weighed(System(s.heap[ptr := usable], q)) && CountsBelow(q, n + 1) && RateCapped(q)
  {
    RecordedBounded(s.profile, ptr, usable, stack, n);
  }

  /** The same after counting a reallocation, or with the hooks off. */
  lemma CountedBounded(heap: map<Ptr, nat>, p: Profile, q: Profile, n: nat)
    requires Weighed(System(heap, p)) && CountsBelow(p, n) && RateCapped(p)
    requires q == p.(sampledReallocs := q.sampledReallocs)
    ensures Weighed(System(heap, q)) && CountsBelow(q, n) && RateCapped(q)
  {
  }

  lemma UnrecordedBounded(s: System, ptr: Ptr, usable: nat, n: nat)
    requires Weighed(s) && CountsBelow(s.profile, n) && ptr !in s.profile.allocations
    ensures Weighed(System(s.heap[ptr := usable], s.profile)) && CountsBelow(s.profile, n + 1)
  {
  }

  lemma RemovedBounded(p: Profile, ptr: Ptr, n: nat)
    requires CountsBelow(p, n)
    ensures var q := Deallocated(p, ptr);
            && CountsBelow(q, n) && q.config == p.config
            && (forall x :: x in q.allocations ==> x in p.allocations && q.allocations[x] == p.allocations[x])
            && (ptr != 0 ==> ptr !in q.allocations)
  {
  }

  // ---- Steps ------------------------------------------------------------------------

  lemma AllocBounded(s: System, ptr: Ptr, usable: nat, stack: Stack, n: nat)
    requires Bounded(s, n) && n < U64_MAX && Possible(s, Alloc(ptr, usable, stack)) && ptr + usable <= TOP
    ensures StepFits(s.profile, Alloc(ptr, usable, stack)) && Bounded(Perform(s, Alloc(ptr, usable, stack)), n + 1)
  {
    var op := Alloc(ptr, usable, stack);
    BlockFits(s, stack, ptr, usable, n);
    StepAgrees(s, op);
    StepTracksLive(s, op);
    PackedWith(s.heap, ptr, usable);
    if s.profile.config.enabled {
      EnteredBounded(s, ptr, usable, stack, n);
    } else {
      UnrecordedBounded(s, ptr, usable, n);
    }
  }

  lemma DeallocBounded(s: System, ptr: Ptr, n: nat)
    requires Bounded(s, n) && Possible(s, Dealloc(ptr))
    ensures Bounded(Perform(s, Dealloc(ptr)), n)
  {
    StepAgrees(s, Dealloc(ptr));
    StepTracksLive(s, Dealloc(ptr));
    RemovedBounded(s.profile, ptr, n);
  }

  lemma ReallocBounded(s: System, oldPtr: Ptr, newPtr: Ptr, usable: nat, stack: Stack, n: nat)
    requires Bounded(s, n) && n < U64_MAX && Possible(s, Realloc(oldPtr, newPtr, usable, stack)) && newPtr + usable <= TOP
    ensures StepFits(s.profile, Realloc(oldPtr, newPtr, usable, stack))
    ensures Bounded(Perform(s, Realloc(oldPtr, newPtr, usable, stack)), n + 1)
  {
    var op := Realloc(oldPtr, newPtr, usable, stack);
    DeallocBounded(s, oldPtr, n);
    var freed := Perform(s, Dealloc(oldPtr));
    BlockFits(freed, stack, newPtr, usable, n);
    StepAgrees(s, op);
    StepTracksLive(s, op);
    PackedWith(freed.heap, newPtr, usable);
    if s.profile.config.enabled {
      EnteredBounded(freed, newPtr, usable, stack, n);
      ReallocatedIs(s.profile, oldPtr, newPtr, usable, stack);
      CountedBounded(freed.heap[newPtr := usable], Recorded(freed.profile, newPtr, usable, stack),
                     Perform(s, op).profile, n + 1);
    } else {
      UnrecordedBounded(freed, newPtr, usable, n);
    }
  }

  /** Resetting and reconfiguring drop allocations or leave them as they are. */
  lemma AdminBounded(s: System, op: Op, n: nat)
    requires Bounded(s, n) && Possible(s, op) && (op.OutOfMemory? || op.Reset? || op.Configure?)
    ensures Bounded(Perform(s, op), n)
  {
    StepAgrees(s, op);
    StepTracksLive(s, op);
    if op.Configure? {
      UpdateKeepsCap(s.profile, op.update);
    }
  }

  lemma UpdateKeepsCap(p: Profile, u: Update)
    requires RateCapped(p)
    ensures RateCapped(Updated(p, u).0)
    ensures (Updated(p, u).0.allocations == p.allocations && Updated(p, u).0.stacks == p.stacks)
            || (Updated(p, u).0.allocations == map[] && Updated(p, u).0.stacks == map[])
  {
  }

  lemma StepBounded(s: System, op: Op, n: nat)
    requires Bounded(s, n) && n < U64_MAX && Possible(s, op) && Placed(op)
    ensures StepFits(s.profile, op) && Bounded(Perform(s, op), n + 1)
  {
    match op
    case Alloc(ptr, usable, stack) => AllocBounded(s, ptr, usable, stack, n);
    case Dealloc(ptr) => DeallocBounded(s, ptr, n);
    case Realloc(oldPtr, newPtr, usable, stack) => ReallocBounded(s, oldPtr, newPtr, usable, stack, n);
    case _ => AdminBounded(s, op, n);
  }

  lemma {:induction false} RunBounded(s: System, ops: seq<Op>, n: nat)
    requires Bounded(s, n) && n + |ops| <= U64_MAX && PossibleRun(s, ops)
    requires forall i :: 0 <= i < |ops| ==> Placed(ops[i])
    ensures RunFits(s, ops)
    decreases |ops|
  {
    if ops != [] {
      StepBounded(s, ops[0], n);
      RunBounded(Perform(s, ops[0]), ops[1..], n + 1);
    }
  }

  /** With a capped sample rate and 47-bit addresses no counter saturates in any
      run shorter than 2^64 calls, so the maps agree throughout. */
  lemma CappedRunAgrees(s: System, ops: seq<Op>)
    requires Fresh(s) && RateCapped(s.profile) && Packed(s.heap, TOP) && 0 !in s.heap
    requires PossibleRun(s, ops) && |ops| <= U64_MAX && forall i :: 0 <= i < |ops| ==> Placed(ops[i])
    ensures RunFits(s, ops) && AgreesThroughout(s, ops)
  {
    ClearedAgrees(s.profile);
    RunBounded(s, ops, 0);
    RunAgrees(s, ops);
  }
}
