/** The sampling memory profiler: a map of tracked pointers and a per-stack
    aggregate (crates/backend/src/memory_profiler.rs).  Hooks run one at a time
    and are not re-entered. */
module Profiler {
  import opened Basics

  const U64_MAX: nat := 0xFFFF_FFFF_FFFF_FFFF
  const USIZE_MAX: nat := 0xFFFF_FFFF_FFFF_FFFF

  function SatAdd(a: nat, b: nat): nat {
    Min(a + b, U64_MAX)
  }

  function SatSub(a: nat, b: nat): nat {
    Max(a - b, 0)
  }

  function SatMul(a: nat, b: nat): nat {
    Min(a * b, U64_MAX)
  }

  /** What an atomic 64-bit counter holds. */
  type U64 = n: nat | n <= U64_MAX

  /** `fetch_add(1)` and `fetch_sub(1)` wrap around. */
  function Inc(n: U64): U64 {
    if n == U64_MAX then 0 else n + 1
  }

  function Dec(n: U64): U64 {
    if n == 0 then U64_MAX else n - 1
  }

  type Ptr = nat   // address; 0 is null

  datatype Stack = Stack(frames: seq<nat>)

  datatype Meta = Meta(stack: Stack, weight: nat)

  datatype Stats = Stats(liveBytes: nat, allocBytesTotal: nat, allocCount: nat, freeCount: nat)

  const NO_STATS := Stats(0, 0, 0, 0)

  datatype Config = Config(enabled: bool, sampleRate: nat, minAllocBytes: nat, maxTracked: nat)

  /** Everything the profiler's fields hold, apart from cached symbol names. */
  datatype Profile = Profile(
    config: Config, allocationSeq: U64, tracked: U64, dropped: U64,
    sampledAllocs: U64, sampledDeallocs: U64, sampledReallocs: U64,
    allocations: map<Ptr, Meta>, stacks: map<Stack, Stats>)

  datatype Update = Update(
    enabled: Option<bool>, sampleRate: Option<nat>, minAllocBytes: Option<nat>, maxTracked: Option<nat>)

  // ---- Specification ---------------------------------------------------------------

  function Cleared(p: Profile): Profile {
    Profile(p.config, 0, 0, 0, 0, 0, 0, map[], map[])
  }

  /** Whether this allocation is sampled, and the profile after counting it. */
  function Sampled(p: Profile, rate: nat): (bool, Profile)
    requires rate >= 1
  {
    if rate <= 1 then (true, p)
    else (p.allocationSeq % rate == 0, p.(allocationSeq := Inc(p.allocationSeq)))
  }

  /** `remove_allocation`: a stack entry goes when its live bytes reach zero. */
  function Removed(p: Profile, ptr: Ptr): Profile {
    if ptr !in p.allocations then p
    else
      var meta := p.allocations[ptr];
      var q := p.(allocations := p.allocations - {ptr}, tracked := Dec(p.tracked));
      if meta.stack !in p.stacks then q
      else
        var before := p.stacks[meta.stack];
        var stats := before.(liveBytes := SatSub(before.liveBytes, meta.weight), freeCount := SatAdd(before.freeCount, 1));
        q.(stacks := if stats.liveBytes == 0 then p.stacks - {meta.stack} else p.stacks[meta.stack := stats])
  }

  function Weight(p: Profile, usable: nat): nat {
    SatMul(usable, Max(p.config.sampleRate, 1))
  }

  /** The insertion at the end of `record_allocation`. */
  function Inserted(p: Profile, ptr: Ptr, stack: Stack, weight: nat): Profile {
    var stats := if stack in p.stacks then p.stacks[stack] else NO_STATS;
    p.(allocations := p.allocations[ptr := Meta(stack, weight)],
       tracked := Inc(p.tracked),
       sampledAllocs := Inc(p.sampledAllocs),
       stacks := p.stacks[stack := Stats(SatAdd(stats.liveBytes, weight), SatAdd(stats.allocBytesTotal, weight),
                                         SatAdd(stats.allocCount, 1), stats.freeCount)])
  }

  function Recorded(p: Profile, ptr: Ptr, usable: nat, stack: Stack): Profile {
    if usable < p.config.minAllocBytes then p
    else
      var (take, q) := Sampled(p, Max(p.config.sampleRate, 1));
      if !take then q
      else if q.tracked >= q.config.maxTracked then q.(dropped := Inc(q.dropped))
      else Inserted(Removed(q, ptr), ptr, stack, Weight(q, usable))
  }

  function Allocated(p: Profile, ptr: Ptr, usable: nat, stack: Stack): Profile {
    if ptr == 0 || !p.config.enabled then p else Recorded(p, ptr, usable, stack)
  }

  function Deallocated(p: Profile, ptr: Ptr): Profile {
    if ptr == 0 || ptr !in p.allocations then p
    else
      var q := Removed(p, ptr);
      q.(sampledDeallocs := Inc(q.sampledDeallocs))
  }

  function Reallocated(p: Profile, oldPtr: Ptr, newPtr: Ptr, usable: nat, stack: Stack): Profile {
    if newPtr == 0 then p
    else
      var q := Deallocated(p, oldPtr);
      var r := if q.config.enabled then Recorded(q, newPtr, usable, stack) else q;
      r.(sampledReallocs := Inc(r.sampledReallocs))
  }

  /** `update_config`: fields before the first invalid one stay applied. */
  function Updated(p: Profile, u: Update): (Profile, bool) {
    var p1 := if u.enabled.None? then p else
                var q := p.(config := p.config.(enabled := u.enabled.value));
                if u.enabled.value then q else Cleared(q);
    if u.sampleRate.Some? && !(1 <= u.sampleRate.value <= 10_000) then (p1, false)
    else
      var p2 := p1.(config := p1.config.(sampleRate := u.sampleRate.GetOr(p1.config.sampleRate)));
      if u.minAllocBytes.Some? && u.minAllocBytes.value == 0 then (p2, false)
      else
        var p3 := p2.(config := p2.config.(minAllocBytes := u.minAllocBytes.GetOr(p2.config.minAllocBytes)));
        if u.maxTracked.Some? && u.maxTracked.value == 0 then (p3, false)
        else (p3.(config := p3.config.(maxTracked := u.maxTracked.GetOr(p3.config.maxTracked))), true)
  }

  // ---- The profiler object ----------------------------------------------------------

  class MemoryProfiler {
    var enabled: bool
    var sampleRate: nat
    var minAllocBytes: nat
    var maxTracked: nat
    var allocationSeq: U64
    var tracked: U64
    var dropped: U64
    var sampledAllocs: U64
    var sampledDeallocs: U64
    var sampledReallocs: U64
    var allocations: map<Ptr, Meta>
    var stacks: map<Stack, Stats>

    ghost function State(): Profile
      reads this
    {
      Profile(Config(enabled, sampleRate, minAllocBytes, maxTracked), allocationSeq, tracked, dropped,
              sampledAllocs, sampledDeallocs, sampledReallocs, allocations, stacks)
    }

    constructor (config: Config)
      ensures State() == Profile(config, 0, 0, 0, 0, 0, 0, map[], map[])
    {
      enabled, sampleRate := config.enabled, config.sampleRate;
      minAllocBytes, maxTracked := config.minAllocBytes, config.maxTracked;
      allocationSeq, tracked, dropped := 0, 0, 0;
      sampledAllocs, sampledDeallocs, sampledReallocs := 0, 0, 0;
      allocations, stacks := map[], map[];
    }

    method ClearRetainedState()
      modifies this
      ensures State() == Cleared(old(State()))
    {
      allocations, stacks := map[], map[];
      allocationSeq, tracked, dropped := 0, 0, 0;
      sampledAllocs, sampledDeallocs, sampledReallocs := 0, 0, 0;
    }

    method ShouldSample(rate: nat) returns (take: bool)
      requires rate >= 1
      modifies this
      ensures (take, State()) == Sampled(old(State()), rate)
    {
      if rate <= 1 {
        return true;
      }
      take := allocationSeq % rate == 0;
      allocationSeq := Inc(allocationSeq);
    }

    method RemoveAllocation(ptr: Ptr) returns (removed: bool)
      modifies this
      ensures removed <==> old(ptr in allocations)
      ensures State() == Removed(old(State()), ptr)
    {
      if ptr !in allocations {
        return false;
      }
      var meta := allocations[ptr];
      allocations := allocations - {ptr};
      tracked := Dec(tracked);
      var dropStack := false;
      if meta.stack in stacks {
        var stats := stacks[meta.stack];
        stats := stats.(liveBytes := SatSub(stats.liveBytes, meta.weight));
        stats := stats.(freeCount := SatAdd(stats.freeCount, 1));
        dropStack := stats.liveBytes == 0;
        stacks := stacks[meta.stack := stats];
      }
      if dropStack {
        assert stacks - {meta.stack} == old(stacks) - {meta.stack};
        stacks := stacks - {meta.stack};
      }
      removed := true;
    }

    /** The last lines of `record_allocation`. */
    method Insert(ptr: Ptr, stack: Stack, weight: nat)
      modifies this
      ensures State() == Inserted(old(State()), ptr, stack, weight)
    {
      allocations := allocations[ptr := Meta(stack, weight)];
      tracked := Inc(tracked);
      sampledAllocs := Inc(sampledAllocs);
      var stats := if stack in stacks then stacks[stack] else NO_STATS;
      stats := stats.(liveBytes := SatAdd(stats.liveBytes, weight));
      stats := stats.(allocBytesTotal := SatAdd(stats.allocBytesTotal, weight));
      stats := stats.(allocCount := SatAdd(stats.allocCount, 1));
      stacks := stacks[stack := stats];
    }

    method RecordAllocation(ptr: Ptr, usable: nat, stack: Stack)
      modifies this
      ensures State() == Recorded(old(State()), ptr, usable, stack)
    {
      if usable < minAllocBytes {
        return;
      }
      var rate := Max(sampleRate, 1);
      var take := ShouldSample(rate);
      if !take {
        return;
      }
      if tracked >= maxTracked {
        dropped := Inc(dropped);
        return;
      }
      var _ := RemoveAllocation(ptr);
      Insert(ptr, stack, SatMul(usable, rate));
    }

    method OnAlloc(ptr: Ptr, usable: nat, stack: Stack)
      modifies this
      ensures State() == Allocated(old(State()), ptr, usable, stack)
    {
      if ptr == 0 || !enabled {
        return;
      }
      RecordAllocation(ptr, usable, stack);
    }

    method OnDealloc(ptr: Ptr)
      modifies this
      ensures State() == Deallocated(old(State()), ptr)
    {
      if ptr == 0 {
        return;
      }
      var removed := RemoveAllocation(ptr);
      if removed {
        sampledDeallocs := Inc(sampledDeallocs);
      }
    }

    method OnRealloc(oldPtr: Ptr, newPtr: Ptr, usable: nat, stack: Stack)
      modifies this
      ensures State() == Reallocated(old(State()), oldPtr, newPtr, usable, stack)
    {
      if newPtr == 0 {
        return;
      }
      if oldPtr != 0 {
        var removed := RemoveAllocation(oldPtr);
        if removed {
          sampledDeallocs := Inc(sampledDeallocs);
        }
      }
      if enabled {
        RecordAllocation(newPtr, usable, stack);
      }
      sampledReallocs := Inc(sampledReallocs);
    }

    method UpdateConfig(u: Update) returns (ok: bool)
      modifies this
      ensures (State(), ok) == Updated(old(State()), u)
    {
      if u.enabled.Some? {
        enabled := u.enabled.value;
        if !enabled {
          ClearRetainedState();
        }
      }
      if u.sampleRate.Some? {
        if u.sampleRate.value == 0 || u.sampleRate.value > 10_000 {
          return false;
        }
        sampleRate := u.sampleRate.value;
      }
      if u.minAllocBytes.Some? {
        if u.minAllocBytes.value == 0 {
          return false;
        }
        minAllocBytes := u.minAllocBytes.value;
      }
      if u.maxTracked.Some? {
        if u.maxTracked.value == 0 {
          return false;
        }
        maxTracked := u.maxTracked.value;
      }
      ok := true;
    }

    method Reset()
      modifies this
      ensures State() == Cleared(old(State()))
    {
      ClearRetainedState();
    }
  }
}
