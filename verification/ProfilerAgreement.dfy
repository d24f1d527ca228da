/** The pointer map and the per-stack aggregate of the profiler always agree, and
    tracked pointers are live heap blocks (crates/backend/src/memory_profiler.rs). */
module ProfilerAgreement {
  import opened Basics
  import opened FiniteSums
  import opened Profiler

  // ---- Agreement --------------------------------------------------------------------

  function WeightOn(a: map<Ptr, Meta>, k: Stack, ptr: Ptr): nat {
    if ptr in a && a[ptr].stack == k then a[ptr].weight else 0
  }

  function CountOn(a: map<Ptr, Meta>, k: Stack, ptr: Ptr): nat {
    if ptr in a && a[ptr].stack == k then 1 else 0
  }

  /** Total weight of the tracked pointers with stack `k`. */
  ghost function LiveBytes(a: map<Ptr, Meta>, k: Stack): nat {
    Sum(a.Keys, ptr => WeightOn(a, k, ptr))
  }

  /** Number of tracked pointers with stack `k`. */
  ghost function LiveCount(a: map<Ptr, Meta>, k: Stack): nat {
    Sum(a.Keys, ptr => CountOn(a, k, ptr))
  }

  /** The aggregate entry of stack `k` says exactly what the pointer map says. */
  ghost predicate EntryAgrees(p: Profile, k: Stack) {
    && (k in p.stacks <==> LiveCount(p.allocations, k) > 0)
    && (k in p.stacks ==>
          var stats := p.stacks[k];
          && stats.liveBytes == LiveBytes(p.allocations, k)
          && stats.allocCount == stats.freeCount + LiveCount(p.allocations, k)
          && stats.liveBytes <= U64_MAX && stats.allocCount <= U64_MAX)
  }

  ghost predicate Agrees(p: Profile) {
    && p.tracked == |p.allocations| <= USIZE_MAX
    && (forall ptr :: ptr in p.allocations ==> p.allocations[ptr].weight >= 1)
    && (forall k :: EntryAgrees(p, k))
    && p.config.minAllocBytes >= 1 && p.config.maxTracked <= USIZE_MAX
  }

  /** Taking a pointer out of the map takes its weight out of its stack. */
  lemma SumsWithout(a: map<Ptr, Meta>, ptr: Ptr, k: Stack)
    requires ptr in a
    ensures LiveBytes(a, k) == LiveBytes(a - {ptr}, k) + WeightOn(a, k, ptr)
    ensures LiveCount(a, k) == LiveCount(a - {ptr}, k) + CountOn(a, k, ptr)
  {
    var b := a - {ptr};
    assert b.Keys == a.Keys - {ptr};
    SumTake(a.Keys, q => WeightOn(a, k, q), ptr);
    SumSame(b.Keys, q => WeightOn(a, k, q), q => WeightOn(b, k, q));
    SumTake(a.Keys, q => CountOn(a, k, q), ptr);
    SumSame(b.Keys, q => CountOn(a, k, q), q => CountOn(b, k, q));
  }

  lemma SumsWith(a: map<Ptr, Meta>, ptr: Ptr, meta: Meta, k: Stack)
    requires ptr !in a
    ensures LiveBytes(a[ptr := meta], k) == LiveBytes(a, k) + if meta.stack == k then meta.weight else 0
    ensures LiveCount(a[ptr := meta], k) == LiveCount(a, k) + if meta.stack == k then 1 else 0
  {
    SumsWithout(a[ptr := meta], ptr, k);
    assert a[ptr := meta] - {ptr} == a;
  }

  /** A stack has live bytes exactly when it has live pointers. */
  lemma BytesIffCount(a: map<Ptr, Meta>, k: Stack)
    requires forall ptr :: ptr in a ==> a[ptr].weight >= 1
    ensures LiveBytes(a, k) == 0 <==> LiveCount(a, k) == 0
  {
    SumZero(a.Keys, ptr => WeightOn(a, k, ptr));
    SumZero(a.Keys, ptr => CountOn(a, k, ptr));
    if LiveBytes(a, k) == 0 {
      assert forall ptr :: ptr in a.Keys ==> (q => WeightOn(a, k, q))(ptr) == 0;
      assert forall ptr :: ptr in a.Keys ==> (q => CountOn(a, k, q))(ptr) == 0 by {
        forall ptr | ptr in a.Keys ensures CountOn(a, k, ptr) == 0 {
          assert (q => WeightOn(a, k, q))(ptr) == 0;
        }
      }
    }
    if LiveCount(a, k) == 0 {
      assert forall ptr :: ptr in a.Keys ==> (q => WeightOn(a, k, q))(ptr) == 0 by {
        forall ptr | ptr in a.Keys ensures WeightOn(a, k, ptr) == 0 {
          assert (q => CountOn(a, k, q))(ptr) == 0;
        }
      }
    }
  }

  lemma RemovedEntry(p: Profile, ptr: Ptr, k: Stack)
    requires ptr in p.allocations && EntryAgrees(p, k)
    requires forall q :: q in p.allocations ==> p.allocations[q].weight >= 1
    ensures EntryAgrees(Removed(p, ptr), k)
  {
    SumsWithout(p.allocations, ptr, k);
    BytesIffCount(p.allocations - {ptr}, k);
  }

  lemma RemovedAgrees(p: Profile, ptr: Ptr)
    requires Agrees(p)
    ensures Agrees(Removed(p, ptr)) && Removed(p, ptr).allocations == p.allocations - {ptr}
  {
    if ptr in p.allocations {
      var q := Removed(p, ptr);
      assert |q.allocations| == |p.allocations| - 1 by {
        assert q.allocations.Keys == p.allocations.Keys - {ptr};
        assert |q.allocations| == |q.allocations.Keys| && |p.allocations| == |p.allocations.Keys|;
      }
      forall k ensures EntryAgrees(q, k) {
        assert EntryAgrees(p, k);
        RemovedEntry(p, ptr, k);
      }
    } else {
      assert p.allocations - {ptr} == p.allocations;
    }
  }

  /** No u64 counter saturates when this block is entered under this stack. */
  predicate Fits(p: Profile, stack: Stack, weight: nat) {
    stack in p.stacks ==>
      p.stacks[stack].liveBytes + weight <= U64_MAX && p.stacks[stack].allocCount < U64_MAX
  }

  /** Entering a block keeps agreement exactly when no counter saturates. */
  lemma InsertedAgrees(p: Profile, ptr: Ptr, stack: Stack, weight: nat)
    requires Agrees(p) && ptr !in p.allocations && p.tracked < USIZE_MAX
    requires 1 <= weight <= U64_MAX
    ensures Agrees(Inserted(p, ptr, stack, weight)) <==> Fits(p, stack, weight)
  {
    var q := Inserted(p, ptr, stack, weight);
    assert |q.allocations| == |p.allocations| + 1 by {
      assert q.allocations.Keys == p.allocations.Keys + {ptr};
      assert |q.allocations| == |q.allocations.Keys| && |p.allocations| == |p.allocations.Keys|;
    }
    if Fits(p, stack, weight) {
      forall k ensures EntryAgrees(q, k) {
        assert EntryAgrees(p, k);
        SumsWith(p.allocations, ptr, Meta(stack, weight), k);
        BytesIffCount(p.allocations, k);
      }
    } else {
      assert EntryAgrees(p, stack);
      SumsWith(p.allocations, ptr, Meta(stack, weight), stack);
      assert !EntryAgrees(q, stack);
    }
  }

  /** The allocation is large enough, sampled, and there is room for it. */
  predicate Enters(p: Profile, usable: nat) {
    var (take, q) := Sampled(p, Max(p.config.sampleRate, 1));
    usable >= p.config.minAllocBytes && take && q.tracked < q.config.maxTracked
  }

  /** Recording one allocation saturates nothing. */
  predicate RecordFits(p: Profile, ptr: Ptr, usable: nat, stack: Stack) {
    Enters(p, usable) ==> Fits(Removed(p, ptr), stack, Weight(p, usable))
  }

  lemma WeightPositive(p: Profile, usable: nat)
    requires usable >= 1
    ensures 1 <= Weight(p, usable) <= U64_MAX
  {
    var rate := Max(p.config.sampleRate, 1);
    assert usable * rate >= usable;
  }

  lemma SampledOnlyCounts(p: Profile, rate: nat, ptr: Ptr)
    requires rate >= 1
    ensures var q := Sampled(p, rate).1;
            && q == p.(allocationSeq := q.allocationSeq)
            && Removed(q, ptr) == Removed(p, ptr).(allocationSeq := q.allocationSeq)
  {
  }

  lemma SameMapsAgree(p: Profile, q: Profile)
    requires q.allocations == p.allocations && q.stacks == p.stacks && q.tracked == p.tracked
    requires p.config.minAllocBytes >= 1 && p.config.maxTracked <= USIZE_MAX
    requires q.config.minAllocBytes >= 1 && q.config.maxTracked <= USIZE_MAX
    ensures Agrees(p) <==> Agrees(q)
  {
    forall k ensures EntryAgrees(p, k) <==> EntryAgrees(q, k) {
    }
  }

  /** Recording an allocation keeps agreement exactly when it saturates nothing. */
  lemma RecordedAgrees(p: Profile, ptr: Ptr, usable: nat, stack: Stack)
    requires Agrees(p)
    ensures Agrees(Recorded(p, ptr, usable, stack)) <==> RecordFits(p, ptr, usable, stack)
  {
    if usable >= p.config.minAllocBytes {
      var rate := Max(p.config.sampleRate, 1);
      var (take, q) := Sampled(p, rate);
      SampledOnlyCounts(p, rate, ptr);
      SameMapsAgree(p, q);
      if Enters(p, usable) {
        RemovedAgrees(q, ptr);
        WeightPositive(p, usable);
        InsertedAgrees(Removed(q, ptr), ptr, stack, Weight(q, usable));
      } else {
        SameMapsAgree(q, Recorded(p, ptr, usable, stack));
      }
    }
  }

  // ---- Runs -------------------------------------------------------------------------

  /** One call into the allocator or the profiler's admin surface. */
  datatype Op =
    | Alloc(ptr: Ptr, usable: nat, stack: Stack)
    | Dealloc(ptr: Ptr)
    | Realloc(oldPtr: Ptr, newPtr: Ptr, usable: nat, stack: Stack)
    | OutOfMemory            // the inner allocator returned null
    | Reset
    | Configure(update: Update)

  /** The heap's live blocks with their usable sizes, next to the profiler. */
  datatype System = System(heap: map<Ptr, nat>, profile: Profile)

  /** A block of this size at this address overlaps no other. */
  predicate Clear(heap: map<Ptr, nat>, ptr: Ptr, usable: nat) {
    ptr !in heap && forall q :: q in heap ==> q + heap[q] <= ptr || ptr + usable <= q
  }

  /** The allocator's contract: new blocks do not overlap live ones, and only
      live blocks are freed. */
  predicate Possible(s: System, op: Op) {
    match op
    case Alloc(ptr, usable, _) => ptr != 0 && Clear(s.heap, ptr, usable)
    case Dealloc(ptr) => ptr in s.heap
    case Realloc(oldPtr, newPtr, usable, _) => oldPtr in s.heap && newPtr != 0 && Clear(s.heap - {oldPtr}, newPtr, usable)
    case Configure(u) => u.maxTracked.Some? ==> u.maxTracked.value <= USIZE_MAX
    case _ => true
  }

  /** `profiler()` yields the profiler to the allocator hooks only while enabled. */
  function Perform(s: System, op: Op): System {
    var p := s.profile;
    match op
    case Alloc(ptr, usable, stack) =>
      System(s.heap[ptr := usable], if p.config.enabled then Allocated(p, ptr, usable, stack) else p)
    case Dealloc(ptr) =>
      System(s.heap - {ptr}, if p.config.enabled then Deallocated(p, ptr) else p)
    case Realloc(oldPtr, newPtr, usable, stack) =>
      System((s.heap - {oldPtr})[newPtr := usable],
             if p.config.enabled then Reallocated(p, oldPtr, newPtr, usable, stack) else p)
    case OutOfMemory => s
    case Reset => s.(profile := Cleared(p))
    case Configure(u) => s.(profile := Updated(p, u).0)
  }

  /** Nothing saturates at this step. */
  predicate StepFits(p: Profile, op: Op) {
    match op
    case Alloc(ptr, usable, stack) => p.config.enabled ==> RecordFits(p, ptr, usable, stack)
    case Realloc(oldPtr, newPtr, usable, stack) =>
      p.config.enabled ==> RecordFits(Deallocated(p, oldPtr), newPtr, usable, stack)
    case _ => true
  }

  predicate PossibleRun(s: System, ops: seq<Op>)
    decreases |ops|
  {
    ops == [] || (Possible(s, ops[0]) && PossibleRun(Perform(s, ops[0]), ops[1..]))
  }

  predicate RunFits(s: System, ops: seq<Op>)
    decreases |ops|
  {
    ops == [] || (StepFits(s.profile, ops[0]) && RunFits(Perform(s, ops[0]), ops[1..]))
  }

  function PerformAll(s: System, ops: seq<Op>): System
    decreases |ops|
  {
    if ops == [] then s else PerformAll(Perform(s, ops[0]), ops[1..])
  }

  /** `from_env`: nothing tracked, and the filtered settings are positive. */
  predicate Fresh(s: System) {
    var c := s.profile.config;
    && s.profile == Profile(c, 0, 0, 0, 0, 0, 0, map[], map[])
    && c.sampleRate >= 1 && c.minAllocBytes >= 1 && 1 <= c.maxTracked <= USIZE_MAX
  }

  lemma ClearedAgrees(p: Profile)
    requires p.config.minAllocBytes >= 1 && p.config.maxTracked <= USIZE_MAX
    ensures Agrees(Cleared(p))
  {
    forall k ensures EntryAgrees(Cleared(p), k) {
    }
  }

  lemma DeallocatedAgrees(p: Profile, ptr: Ptr)
    requires Agrees(p)
    ensures Agrees(Deallocated(p, ptr))
  {
    RemovedAgrees(p, ptr);
    SameMapsAgree(Removed(p, ptr), Removed(p, ptr).(sampledDeallocs := Inc(Removed(p, ptr).sampledDeallocs)));
  }

  lemma AllocatedAgrees(p: Profile, ptr: Ptr, usable: nat, stack: Stack)
    requires Agrees(p) && ptr != 0 && p.config.enabled
    ensures Agrees(Allocated(p, ptr, usable, stack)) <==> RecordFits(p, ptr, usable, stack)
  {
    RecordedAgrees(p, ptr, usable, stack);
  }

  lemma CountedAgrees(p: Profile)
    requires p.config.minAllocBytes >= 1 && p.config.maxTracked <= USIZE_MAX
    ensures Agrees(p.(sampledReallocs := Inc(p.sampledReallocs))) <==> Agrees(p)
  {
    SameMapsAgree(p, p.(sampledReallocs := Inc(p.sampledReallocs)));
  }

  lemma ReallocatedIs(p: Profile, oldPtr: Ptr, newPtr: Ptr, usable: nat, stack: Stack)
    requires newPtr != 0 && p.config.enabled
    ensures var r := Allocated(Deallocated(p, oldPtr), newPtr, usable, stack);
            Reallocated(p, oldPtr, newPtr, usable, stack) == r.(sampledReallocs := Inc(r.sampledReallocs))
    ensures Deallocated(p, oldPtr).config == p.config
    ensures Allocated(Deallocated(p, oldPtr), newPtr, usable, stack).config == p.config
  {
  }

  lemma CountedRecordAgrees(q: Profile, ptr: Ptr, usable: nat, stack: Stack)
    requires Agrees(q) && ptr != 0 && q.config.enabled && Allocated(q, ptr, usable, stack).config == q.config
    ensures var r := Allocated(q, ptr, usable, stack);
            Agrees(r.(sampledReallocs := Inc(r.sampledReallocs))) <==> RecordFits(q, ptr, usable, stack)
  {
    AllocatedAgrees(q, ptr, usable, stack);
    CountedAgrees(Allocated(q, ptr, usable, stack));
  }

  lemma ReallocatedAgrees(p: Profile, oldPtr: Ptr, newPtr: Ptr, usable: nat, stack: Stack)
    requires Agrees(p) && newPtr != 0 && p.config.enabled
    ensures Agrees(Reallocated(p, oldPtr, newPtr, usable, stack))
            <==> RecordFits(Deallocated(p, oldPtr), newPtr, usable, stack)
  {
    ReallocatedIs(p, oldPtr, newPtr, usable, stack);
    DeallocatedAgrees(p, oldPtr);
    CountedRecordAgrees(Deallocated(p, oldPtr), newPtr, usable, stack);
  }

  lemma UpdatedAgrees(p: Profile, u: Update)
    requires Agrees(p) && (u.maxTracked.Some? ==> u.maxTracked.value <= USIZE_MAX)
    ensures Agrees(Updated(p, u).0)
  {
    if u.enabled == Some(false) {
      var q := Cleared(p.(config := p.config.(enabled := false)));
      ClearedAgrees(p.(config := p.config.(enabled := false)));
      SameMapsAgree(q, Updated(p, u).0);
    } else {
      SameMapsAgree(p, Updated(p, u).0);
    }
  }

  /** Every hook and every admin call keeps agreement exactly when it saturates nothing. */
  lemma StepAgrees(s: System, op: Op)
    requires Agrees(s.profile) && Possible(s, op)
    ensures Agrees(Perform(s, op).profile) <==> StepFits(s.profile, op)
  {
    var p := s.profile;
    match op
    case Alloc(ptr, usable, stack) =>
      if p.config.enabled {
        AllocatedAgrees(p, ptr, usable, stack);
      }
    case Dealloc(ptr) => DeallocatedAgrees(p, ptr);
    case Realloc(oldPtr, newPtr, usable, stack) =>
      if p.config.enabled {
        ReallocatedAgrees(p, oldPtr, newPtr, usable, stack);
      }
    case OutOfMemory =>
    case Reset => ClearedAgrees(p);
    case Configure(u) => UpdatedAgrees(p, u);
  }

  ghost predicate AgreesThroughout(s: System, ops: seq<Op>)
    decreases |ops|
  {
    Agrees(s.profile) && (ops == [] || AgreesThroughout(Perform(s, ops[0]), ops[1..]))
  }

  lemma {:induction false} RunAgreesFrom(s: System, ops: seq<Op>)
    requires Agrees(s.profile) && PossibleRun(s, ops)
    ensures AgreesThroughout(s, ops) <==> RunFits(s, ops)
    ensures AgreesThroughout(s, ops) ==> Agrees(PerformAll(s, ops).profile)
    decreases |ops|
  {
    if ops != [] {
      StepAgrees(s, ops[0]);
      if StepFits(s.profile, ops[0]) {
        RunAgreesFrom(Perform(s, ops[0]), ops[1..]);
      }
    }
  }

  /** Over every run the maps agree throughout if and only if no u64 counter saturates. */
  lemma RunAgrees(s: System, ops: seq<Op>)
    requires Fresh(s) && PossibleRun(s, ops)
    ensures AgreesThroughout(s, ops) <==> RunFits(s, ops)
    ensures RunFits(s, ops) ==> Agrees(PerformAll(s, ops).profile)
  {
    ClearedAgrees(s.profile);
    RunAgreesFrom(s, ops);
  }

  // ---- Saturation breaks agreement ----------------------------------------------------

  const DEEP := Stack([7])

  /** `from_env` does not cap the sample rate; `update_config` does. */
  const UNCAPPED := Config(true, 0x8000_0000_0000_0000, 1, 10)

  const SATURATING: seq<Op> :=
    [Alloc(4096, 256, DEEP), Configure(Update(None, Some(1), None, None)), Alloc(8192, 256, DEEP), Dealloc(4096)]

  const FULL := Stats(U64_MAX, U64_MAX, 1, 0)

  const BEFORE := System(map[], Profile(UNCAPPED, 0, 0, 0, 0, 0, 0, map[], map[]))

  const ONE := System(map[4096 := 256],
    Profile(UNCAPPED, 1, 1, 0, 1, 0, 0, map[4096 := Meta(DEEP, U64_MAX)], map[DEEP := FULL]))

  const CAPPED := ONE.(profile := ONE.profile.(config := UNCAPPED.(sampleRate := 1)))

  const TWO := System(map[4096 := 256, 8192 := 256],
    Profile(UNCAPPED.(sampleRate := 1), 1, 2, 0, 2, 0, 0,
            map[4096 := Meta(DEEP, U64_MAX), 8192 := Meta(DEEP, 256)], map[DEEP := FULL.(allocCount := 2)]))

  const LEFT := System(map[8192 := 256],
    Profile(UNCAPPED.(sampleRate := 1), 1, 1, 0, 2, 1, 0, map[8192 := Meta(DEEP, 256)], map[]))

  lemma SaturatingSteps()
    ensures Perform(BEFORE, SATURATING[0]) == ONE && Perform(ONE, SATURATING[1]) == CAPPED
    ensures Perform(CAPPED, SATURATING[2]) == TWO
  {
    assert Weight(BEFORE.profile, 256) == U64_MAX;
    assert Perform(CAPPED, SATURATING[2]).profile.allocations == TWO.profile.allocations;
    assert Perform(CAPPED, SATURATING[2]).profile.stacks == TWO.profile.stacks;
  }

  lemma LastStepDeletes()
    ensures Perform(TWO, SATURATING[3]) == LEFT
  {
    assert Removed(TWO.profile, 4096).allocations == map[8192 := Meta(DEEP, 256)];
    assert Removed(TWO.profile, 4096).stacks == map[];
    assert TWO.heap - {4096} == LEFT.heap;
  }

  lemma LeftDisagrees()
    ensures !Agrees(LEFT.profile)
  {
    var a := LEFT.profile.allocations;
    SumAtLeast(a.Keys, ptr => CountOn(a, DEEP, ptr), 8192);
    assert !EntryAgrees(LEFT.profile, DEEP);
  }

  lemma PerformFrom(s: System, ops: seq<Op>, t: System)
    requires ops != [] && Possible(s, ops[0]) && Perform(s, ops[0]) == t && PossibleRun(t, ops[1..])
    ensures PossibleRun(s, ops) && PerformAll(s, ops) == PerformAll(t, ops[1..])
  {
  }

  /** Without that condition agreement fails on an ordinary heap: the first block
      is recorded under a huge sample rate and fills the live bytes, the second is
      recorded at rate one, and freeing the first deletes the entry of both. */
  lemma SaturationDisagrees()
    ensures Fresh(BEFORE) && PossibleRun(BEFORE, SATURATING) && !RunFits(BEFORE, SATURATING)
    ensures PerformAll(BEFORE, SATURATING) == LEFT && !Agrees(LEFT.profile)
  {
    SaturatingSteps();
    LastStepDeletes();
    LeftDisagrees();
    assert SATURATING[1..][1..][1..][1..] == [];
    PerformFrom(TWO, SATURATING[1..][1..][1..], LEFT);
    PerformFrom(CAPPED, SATURATING[1..][1..], TWO);
    PerformFrom(ONE, SATURATING[1..], CAPPED);
    PerformFrom(BEFORE, SATURATING, ONE);
    RunAgrees(BEFORE, SATURATING);
  }

  // ---- Tracked pointers are live ----------------------------------------------------

  /** A disabled profiler tracks nothing, because the hooks skip while disabled. */
  ghost predicate TracksLive(s: System) {
    && s.profile.allocations.Keys <= s.heap.Keys
    && (!s.profile.config.enabled ==> s.profile.allocations == map[])
    && 0 !in s.heap
  }

  lemma RecordedKeys(p: Profile, ptr: Ptr, usable: nat, stack: Stack)
    ensures Recorded(p, ptr, usable, stack).allocations.Keys <= p.allocations.Keys + {ptr}
    ensures Recorded(p, ptr, usable, stack).config == p.config
  {
  }

  lemma StepTracksLive(s: System, op: Op)
    requires TracksLive(s) && Possible(s, op)
    ensures TracksLive(Perform(s, op))
  {
    var p := s.profile;
    match op
    case Alloc(ptr, usable, stack) => RecordedKeys(p, ptr, usable, stack);
    case Realloc(oldPtr, newPtr, usable, stack) =>
      RecordedKeys(Deallocated(p, oldPtr), newPtr, usable, stack);
    case _ =>
  }

  lemma {:induction false} RunTracksLiveFrom(s: System, ops: seq<Op>)
    requires TracksLive(s) && PossibleRun(s, ops)
    ensures TracksLive(PerformAll(s, ops))
    decreases |ops|
  {
    if ops != [] {
      StepTracksLive(s, ops[0]);
      RunTracksLiveFrom(Perform(s, ops[0]), ops[1..]);
    }
  }

  /** Over every run, saturating or not, every tracked pointer is a live block. */
  lemma TrackedPointersAreLive(s: System, ops: seq<Op>)
    requires Fresh(s) && 0 !in s.heap && PossibleRun(s, ops)
    ensures PerformAll(s, ops).profile.allocations.Keys <= PerformAll(s, ops).heap.Keys
    ensures !PerformAll(s, ops).profile.config.enabled ==> PerformAll(s, ops).profile.allocations == map[]
  {
    RunTracksLiveFrom(s, ops);
  }
}
