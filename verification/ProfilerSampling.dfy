/** Which allocations the profiler records, what each stands for, and what its
    counters add up to (crates/backend/src/memory_profiler.rs). */
module ProfilerSampling {
  import opened Basics
  import opened Profiler
  import opened ProfilerAgreement

  // ---- Every rate-th call ------------------------------------------------------------

  lemma Quotient(a: nat, r: nat, i: nat)
    requires i < r
    ensures (a * r + i) / r == a && (a * r + i) % r == i
  {
    var n := a * r + i;
    var q := n / r;
    assert n == q * r + n % r;
    assert (q + 1) * r == q * r + r && (a + 1) * r == a * r + r;
    if q < a {
      TimesGrows(q + 1, a, r);
    } else if q > a {
      TimesGrows(a + 1, q, r);
    }
  }

  /** With a rate above one, a call is sampled if and only if the calls before it
      are a multiple of the rate; with a rate of one, every call is. */
  lemma SampledExactly(p: Profile, rate: nat, k: nat, i: nat)
    requires rate >= 1 && i < rate && p.allocationSeq == k * rate + i
    ensures Sampled(p, rate).0 <==> i == 0
    ensures rate >= 2 ==> Sampled(p, rate).1 == p.(allocationSeq := Inc(p.allocationSeq))
  {
    Quotient(k, rate, i);
  }

  /** `n` divided by the rate, rounded up. */
  function Share(n: nat, rate: nat): nat
    requires rate >= 1
  {
    (n + rate - 1) / rate
  }

  lemma ShareStep(n: nat, rate: nat)
    requires rate >= 1
    ensures Share(n + 1, rate) == Share(n, rate) + if n % rate == 0 then 1 else 0
    ensures Share(n, rate) <= n
  {
    var a, i := n / rate, n % rate;
    assert n == a * rate + i;
    assert n + 1 + rate - 1 == (a + 1) * rate + i by {
      assert (a + 1) * rate == a * rate + rate;
    }
    Quotient(a + 1, rate, i);
    if i == 0 {
      assert n + rate - 1 == a * rate + (rate - 1);
      Quotient(a, rate, rate - 1);
    } else {
      assert n + rate - 1 == (a + 1) * rate + (i - 1) by {
        assert (a + 1) * rate == a * rate + rate;
      }
      Quotient(a + 1, rate, i - 1);
    }
    AtMostItself(a, rate);
  }

  lemma AtMostItself(a: nat, rate: nat)
    requires rate >= 1
    ensures a <= a * rate
  {
    TimesGrows(1, rate, a);
  }

  // ---- A row of allocations after a reset ---------------------------------------------

  datatype Attempt = Attempt(ptr: Ptr, usable: nat, stack: Stack)

  function RecordAll(p: Profile, attempts: seq<Attempt>): Profile {
    if attempts == [] then p
    else
      var a := attempts[|attempts| - 1];
      Recorded(RecordAll(p, attempts[..|attempts| - 1]), a.ptr, a.usable, a.stack)
  }

  predicate LargeEnough(p: Profile, attempts: seq<Attempt>) {
    forall i :: 0 <= i < |attempts| ==> attempts[i].usable >= p.config.minAllocBytes
  }

  function RateOf(p: Profile): nat {
    if p.config.sampleRate >= 1 then p.config.sampleRate else 1
  }

  lemma DecidedCounts(p: Profile, a: Attempt, take: bool)
    requires a.usable >= p.config.minAllocBytes && take == Sampled(p, RateOf(p)).0
    requires p.sampledAllocs < U64_MAX && p.dropped < U64_MAX
    ensures var q := Recorded(p, a.ptr, a.usable, a.stack);
            && q.config == p.config && q.allocationSeq == Sampled(p, RateOf(p)).1.allocationSeq
            && q.sampledAllocs + q.dropped == p.sampledAllocs + p.dropped + if take then 1 else 0
  {
  }

  /** What one attempt adds to the counters. */
  lemma AttemptCounts(p: Profile, a: Attempt, n: nat)
    requires a.usable >= p.config.minAllocBytes && n < U64_MAX
    requires RateOf(p) >= 2 ==> p.allocationSeq == n
    requires p.sampledAllocs + p.dropped <= n
    ensures var q := Recorded(p, a.ptr, a.usable, a.stack);
            && q.config == p.config
            && (RateOf(p) >= 2 ==> q.allocationSeq == n + 1)
            && q.sampledAllocs + q.dropped == p.sampledAllocs + p.dropped + if n % RateOf(p) == 0 then 1 else 0
  {
    var rate := RateOf(p);
    if rate >= 2 {
      assert n == n / rate * rate + n % rate;
      SampledExactly(p, rate, n / rate, n % rate);
    } else {
      assert n % 1 == 0;
    }
    DecidedCounts(p, a, Sampled(p, rate).0);
  }

  /** After a reset, of `n` allocations that pass the size filter exactly n / rate,
      rounded up, are sampled: each is recorded or, for want of room, dropped. */
  lemma {:induction false} SampledShare(p: Profile, attempts: seq<Attempt>)
    requires LargeEnough(p, attempts) && |attempts| <= U64_MAX
    ensures var q := RecordAll(Cleared(p), attempts);
            && q.config == p.config
            && (RateOf(p) >= 2 ==> q.allocationSeq == |attempts|)
            && q.sampledAllocs + q.dropped == Share(|attempts|, RateOf(p))
  {
    var rate := RateOf(p);
    if attempts == [] {
      NoneShared(rate);
    } else {
      var n := |attempts| - 1;
      SampledShare(p, attempts[..n]);
      ShareStep(n, rate);
      AttemptCounts(RecordAll(Cleared(p), attempts[..n]), attempts[n], n);
    }
  }

  /** An entered block weighs its usable size times the rate, and its stack is
      charged with exactly that, when nothing saturates. */
  lemma EnteredWeight(p: Profile, ptr: Ptr, usable: nat, stack: Stack)
    requires Enters(p, usable) && ptr !in p.allocations
    ensures var q := Recorded(p, ptr, usable, stack);
            var weight := usable * RateOf(p);
            && q.allocations.Keys == p.allocations.Keys + {ptr}
            && (weight <= U64_MAX ==>
                  && q.allocations[ptr] == Meta(stack, weight)
                  && stack in q.stacks
                  && (stack !in p.stacks ==> q.stacks[stack] == Stats(weight, weight, 1, 0))
                  && (stack in p.stacks && p.stacks[stack].liveBytes + weight <= U64_MAX ==>
                        && q.stacks[stack].liveBytes == p.stacks[stack].liveBytes + weight
                        && (p.stacks[stack].allocBytesTotal + weight <= U64_MAX ==>
                              q.stacks[stack].allocBytesTotal == p.stacks[stack].allocBytesTotal + weight)))
            && (forall x :: x in p.allocations ==> q.allocations[x] == p.allocations[x])
  {
  }

  // ---- The estimate ---------------------------------------------------------------------

  predicate FreshPointers(attempts: seq<Attempt>) {
    forall i, j :: 0 <= i < j < |attempts| ==> attempts[i].ptr != attempts[j].ptr
  }

  /** The profiler tracks `count` of the blocks attempted, each at one weight. */
  ghost predicate Tracks(q: Profile, attempts: seq<Attempt>, weight: nat, count: nat) {
    && (forall x :: x in q.allocations ==> exists i :: 0 <= i < |attempts| && attempts[i].ptr == x)
    && (forall x :: x in q.allocations ==> q.allocations[x].weight == weight)
    && q.tracked == |q.allocations| == count
    && q.dropped == 0 && q.sampledAllocs == count
  }

  lemma MoreAttempts(q: Profile, r: Profile, attempts: seq<Attempt>, a: Attempt, weight: nat, count: nat)
    requires Tracks(q, attempts, weight, count) && r == q.(allocationSeq := r.allocationSeq)
    ensures Tracks(r, attempts + [a], weight, count)
  {
    forall x | x in q.allocations ensures exists i :: 0 <= i <= |attempts| && (attempts + [a])[i].ptr == x {
      var i :| 0 <= i < |attempts| && attempts[i].ptr == x;
      assert (attempts + [a])[i].ptr == x;
    }
  }

  lemma FreshIsUntracked(q: Profile, attempts: seq<Attempt>, ptr: Ptr, weight: nat, count: nat)
    requires Tracks(q, attempts, weight, count) && forall i :: 0 <= i < |attempts| ==> attempts[i].ptr != ptr
    ensures ptr !in q.allocations
  {
  }

  lemma InsertedTracks(q: Profile, attempts: seq<Attempt>, a: Attempt, weight: nat, count: nat)
    requires Tracks(q, attempts, weight, count) && a.ptr !in q.allocations && count < U64_MAX
    ensures Tracks(Inserted(q, a.ptr, a.stack, weight), attempts + [a], weight, count + 1)
  {
    var r := Inserted(q, a.ptr, a.stack, weight);
    assert |r.allocations| == |q.allocations| + 1 by {
      assert r.allocations.Keys == q.allocations.Keys + {a.ptr};
      assert |r.allocations| == |r.allocations.Keys| && |q.allocations| == |q.allocations.Keys|;
    }
    assert (attempts + [a])[|attempts|].ptr == a.ptr;
    forall x | x in q.allocations ensures exists i :: 0 <= i <= |attempts| && (attempts + [a])[i].ptr == x {
      var i :| 0 <= i < |attempts| && attempts[i].ptr == x;
      assert (attempts + [a])[i].ptr == x;
    }
  }

  /** An attempt that is sampled enters, one that is not only counts. */
  lemma AttemptIs(q: Profile, a: Attempt, n: nat)
    requires a.usable >= q.config.minAllocBytes && n < U64_MAX && a.ptr !in q.allocations
    requires a.usable * RateOf(q) <= U64_MAX && q.tracked < q.config.maxTracked
    requires RateOf(q) >= 2 ==> q.allocationSeq == n
    ensures var r := Recorded(q, a.ptr, a.usable, a.stack);
            var counted := q.(allocationSeq := r.allocationSeq);
            r == if n % RateOf(q) == 0 then Inserted(counted, a.ptr, a.stack, a.usable * RateOf(q)) else counted
  {
    var rate := RateOf(q);
    if rate >= 2 {
      assert n == n / rate * rate + n % rate;
      SampledExactly(q, rate, n / rate, n % rate);
    } else {
      assert n % 1 == 0;
    }
  }

  /** The same when the table is full and the attempt is not sampled. */
  lemma UnsampledIs(q: Profile, a: Attempt, n: nat)
    requires a.usable >= q.config.minAllocBytes && n < U64_MAX
    requires RateOf(q) >= 2 && q.allocationSeq == n && n % RateOf(q) != 0
    ensures var r := Recorded(q, a.ptr, a.usable, a.stack);
            r == q.(allocationSeq := r.allocationSeq)
  {
    var rate := RateOf(q);
    assert n == n / rate * rate + n % rate;
    SampledExactly(q, rate, n / rate, n % rate);
  }

  lemma EstimateStep(q: Profile, attempts: seq<Attempt>, a: Attempt, n: nat, rate: nat, weight: nat)
    requires n == |attempts| < U64_MAX && rate == RateOf(q) && weight == a.usable * rate <= U64_MAX
    requires Tracks(q, attempts, weight, Share(n, rate))
    requires a.usable >= q.config.minAllocBytes
    requires rate >= 2 ==> q.allocationSeq == n
    requires Share(n + 1, rate) <= q.config.maxTracked
    requires forall i :: 0 <= i < n ==> attempts[i].ptr != a.ptr
    ensures Tracks(Recorded(q, a.ptr, a.usable, a.stack), attempts + [a], weight, Share(n + 1, rate))
  {
    var count := Share(n, rate);
    var r := Recorded(q, a.ptr, a.usable, a.stack);
    var counted := q.(allocationSeq := r.allocationSeq);
    ShareStep(n, rate);
    FreshIsUntracked(q, attempts, a.ptr, weight, count);
    if n % rate == 0 {
      AttemptIs(q, a, n);
      TracksSame(q, counted, attempts, weight, count);
      InsertedTracks(counted, attempts, a, weight, count);
    } else {
      UnsampledIs(q, a, n);
      MoreAttempts(q, r, attempts, a, weight, count);
    }
  }

  lemma TracksSame(q: Profile, r: Profile, attempts: seq<Attempt>, weight: nat, count: nat)
    requires Tracks(q, attempts, weight, count) && r == q.(allocationSeq := r.allocationSeq)
    ensures Tracks(r, attempts, weight, count)
  {
  }

  lemma NoneShared(rate: nat)
    requires rate >= 1
    ensures Share(0, rate) == 0
  {
    Quotient(0, rate, rate - 1);
  }

  lemma RecordAllPush(p: Profile, init: seq<Attempt>, a: Attempt, q: Profile)
    requires q == RecordAll(p, init)
    ensures RecordAll(p, init + [a]) == Recorded(q, a.ptr, a.usable, a.stack)
  {
    assert (init + [a])[..|init|] == init;
  }

  /** What one more attempt needs to know about the profiler after the others. */
  lemma AfterAttempts(p: Profile, init: seq<Attempt>, q: Profile)
    requires LargeEnough(p, init) && |init| <= U64_MAX && q == RecordAll(Cleared(p), init)
    ensures q.config == p.config && RateOf(q) == RateOf(p) && (RateOf(p) >= 2 ==> q.allocationSeq == |init|)
  {
    SampledShare(p, init);
  }

  lemma FreshAtEnd(init: seq<Attempt>, a: Attempt)
    requires FreshPointers(init + [a])
    ensures forall i :: 0 <= i < |init| ==> init[i].ptr != a.ptr
  {
    var all := init + [a];
    assert all[|init|] == a && forall i :: 0 <= i < |init| ==> init[i] == all[i];
  }

  /** After a reset and `n` allocations of one size, with room for the samples, the
      profiler tracks n / rate blocks, rounded up, of rate times that size: the
      estimate is never below the truth and exceeds it by less than one sample. */
  lemma EstimateIsFair(p: Profile, attempts: seq<Attempt>, usable: nat)
    requires LargeEnough(p, attempts) && |attempts| <= U64_MAX && FreshPointers(attempts)
    requires forall i :: 0 <= i < |attempts| ==> attempts[i].usable == usable
    requires usable * RateOf(p) <= U64_MAX && Share(|attempts|, RateOf(p)) <= p.config.maxTracked
    ensures Tracks(RecordAll(Cleared(p), attempts), attempts, usable * RateOf(p), Share(|attempts|, RateOf(p)))
  {
    EstimateFrom(p, attempts, usable, RateOf(p), usable * RateOf(p));
  }

  lemma {:induction false} EstimateFrom(p: Profile, attempts: seq<Attempt>, usable: nat, rate: nat, weight: nat)
    requires rate == RateOf(p) && weight == usable * rate <= U64_MAX
    requires LargeEnough(p, attempts) && |attempts| <= U64_MAX && FreshPointers(attempts)
    requires forall i :: 0 <= i < |attempts| ==> attempts[i].usable == usable
    requires Share(|attempts|, rate) <= p.config.maxTracked
    ensures Tracks(RecordAll(Cleared(p), attempts), attempts, weight, Share(|attempts|, rate))
    decreases |attempts|
  {
    if attempts == [] {
      NoneShared(rate);
    } else {
      var n := |attempts| - 1;
      var init, a := attempts[..n], attempts[n];
      assert attempts == init + [a];
      ShareStep(n, rate);
      EstimateFrom(p, init, usable, rate, weight);
      var q := RecordAll(Cleared(p), init);
      AfterAttempts(p, init, q);
      FreshAtEnd(init, a);
      RecordAllPush(Cleared(p), init, a, q);
      EstimateStep(q, init, a, n, rate, weight);
    }
  }

  /** In bytes. */
  lemma ShareCovers(n: nat, rate: nat, usable: nat)
    requires rate >= 1
    ensures n * usable <= Share(n, rate) * (usable * rate) <= n * usable + rate * usable
  {
    var s := Share(n, rate);
    var m := n + rate - 1;
    assert m == s * rate + m % rate;
    assert n <= s * rate < n + rate;
    TimesGrows(n, s * rate, usable);
    TimesGrows(s * rate, n + rate, usable);
    assert s * (usable * rate) == (s * rate) * usable by {
      assert usable * rate == rate * usable;
      Associates(s, rate, usable);
    }
    assert (n + rate) * usable == n * usable + rate * usable;
  }

  lemma Associates(a: nat, b: nat, c: nat)
    ensures a * (b * c) == (a * b) * c
  {
  }

  // ---- What the counters add up to ----------------------------------------------------

  /** Sampled allocations are the tracked ones and the freed ones. */
  ghost predicate Tallied(s: System, n: nat) {
    && TracksLive(s)
    && s.profile.tracked == |s.profile.allocations|
    && s.profile.sampledAllocs == s.profile.tracked + s.profile.sampledDeallocs <= n
  }

  lemma InsertedTallies(p: Profile, ptr: Ptr, stack: Stack, weight: nat, n: nat)
    requires ptr !in p.allocations && p.tracked == |p.allocations|
    requires p.sampledAllocs == p.tracked + p.sampledDeallocs <= n < U64_MAX
    ensures var q := Inserted(p, ptr, stack, weight);
            q.tracked == |q.allocations| && q.sampledAllocs == q.tracked + q.sampledDeallocs <= n + 1
  {
    var q := Inserted(p, ptr, stack, weight);
    assert q.allocations.Keys == p.allocations.Keys + {ptr};
    assert |q.allocations| == |q.allocations.Keys| && |p.allocations| == |p.allocations.Keys|;
  }

  lemma RecordTallies(p: Profile, ptr: Ptr, usable: nat, stack: Stack, n: nat)
    requires ptr !in p.allocations && p.tracked == |p.allocations|
    requires p.sampledAllocs == p.tracked + p.sampledDeallocs <= n < U64_MAX
    ensures var q := Recorded(p, ptr, usable, stack);
            q.tracked == |q.allocations| && q.sampledAllocs == q.tracked + q.sampledDeallocs <= n + 1
  {
    if Enters(p, usable) {
      var q := Sampled(p, RateOf(p)).1;
      InsertedTallies(q, ptr, stack, Weight(q, usable), n);
    }
  }

  lemma RemoveTallies(p: Profile, ptr: Ptr, n: nat)
    requires p.tracked == |p.allocations| && p.sampledAllocs == p.tracked + p.sampledDeallocs <= n <= U64_MAX
    ensures var q := Deallocated(p, ptr);
            && q.tracked == |q.allocations| && q.sampledAllocs == q.tracked + q.sampledDeallocs <= n
            && q.config == p.config && (ptr != 0 ==> ptr !in q.allocations)
  {
    if ptr in p.allocations {
      var q := Deallocated(p, ptr);
      if ptr != 0 {
        assert q.allocations.Keys == p.allocations.Keys - {ptr};
        assert |q.allocations| == |q.allocations.Keys| && |p.allocations| == |p.allocations.Keys|;
      }
    }
  }

  lemma ReallocTallies(s: System, oldPtr: Ptr, newPtr: Ptr, usable: nat, stack: Stack, n: nat)
    requires Tallied(s, n) && n < U64_MAX && Possible(s, Realloc(oldPtr, newPtr, usable, stack))
    ensures Tallied(Perform(s, Realloc(oldPtr, newPtr, usable, stack)), n + 1)
  {
    StepTracksLive(s, Realloc(oldPtr, newPtr, usable, stack));
    if s.profile.config.enabled {
      RemoveTallies(s.profile, oldPtr, n);
      ReallocatedIs(s.profile, oldPtr, newPtr, usable, stack);
      RecordTallies(Deallocated(s.profile, oldPtr), newPtr, usable, stack, n);
    }
  }

  lemma AllocTallies(s: System, ptr: Ptr, usable: nat, stack: Stack, n: nat)
    requires Tallied(s, n) && n < U64_MAX && Possible(s, Alloc(ptr, usable, stack))
    ensures Tallied(Perform(s, Alloc(ptr, usable, stack)), n + 1)
  {
    StepTracksLive(s, Alloc(ptr, usable, stack));
    RecordTallies(s.profile, ptr, usable, stack, n);
  }

  lemma DeallocTallies(s: System, ptr: Ptr, n: nat)
    requires Tallied(s, n) && n < U64_MAX && Possible(s, Dealloc(ptr))
    ensures Tallied(Perform(s, Dealloc(ptr)), n + 1)
  {
    StepTracksLive(s, Dealloc(ptr));
    RemoveTallies(s.profile, ptr, n);
  }

  lemma AdminTallies(s: System, op: Op, n: nat)
    requires Tallied(s, n) && n < U64_MAX && Possible(s, op) && (op.OutOfMemory? || op.Reset? || op.Configure?)
    ensures Tallied(Perform(s, op), n + 1)
  {
    StepTracksLive(s, op);
    if op.Configure? {
      UpdateTallies(s.profile, op.update);
    }
  }

  lemma UpdateTallies(p: Profile, u: Update)
    ensures var q := Updated(p, u).0;
            || (q.allocations == p.allocations && q.tracked == p.tracked
                && q.sampledAllocs == p.sampledAllocs && q.sampledDeallocs == p.sampledDeallocs)
            || (q.allocations == map[] && q.tracked == q.sampledAllocs == q.sampledDeallocs == 0)
  {
  }

  lemma StepTallies(s: System, op: Op, n: nat)
    requires Tallied(s, n) && n < U64_MAX && Possible(s, op)
    ensures Tallied(Perform(s, op), n + 1)
  {
    match op
    case Alloc(ptr, usable, stack) => AllocTallies(s, ptr, usable, stack, n);
    case Dealloc(ptr) => DeallocTallies(s, ptr, n);
    case Realloc(oldPtr, newPtr, usable, stack) => ReallocTallies(s, oldPtr, newPtr, usable, stack, n);
    case _ => AdminTallies(s, op, n);
  }

  /** Over every run the sampled allocations are those still tracked and those
      sampled as freed: no entry is ever replaced or forgotten otherwise. */
  lemma {:induction false} RunTallies(s: System, ops: seq<Op>, n: nat)
    requires Tallied(s, n) && n + |ops| <= U64_MAX && PossibleRun(s, ops)
    ensures Tallied(PerformAll(s, ops), n + |ops|)
    decreases |ops|
  {
    if ops != [] {
      StepTallies(s, ops[0], n);
      RunTallies(Perform(s, ops[0]), ops[1..], n + 1);
    }
  }

  lemma CountersAddUp(s: System, ops: seq<Op>)
    requires Fresh(s) && 0 !in s.heap && PossibleRun(s, ops) && |ops| <= U64_MAX
    ensures var p := PerformAll(s, ops).profile;
            p.sampledAllocs == |p.allocations| + p.sampledDeallocs && p.tracked == |p.allocations|
  {
    RunTallies(s, ops, 0);
  }

  // ---- Settings --------------------------------------------------------------------------

  /** An update is accepted exactly when every setting it names is valid, and is
      then in force; whether or not, switching off clears everything. */
  lemma UpdateExactly(p: Profile, u: Update)
    ensures var (q, ok) := Updated(p, u);
            && (ok <==>
                  && (u.sampleRate.Some? ==> 1 <= u.sampleRate.value <= 10_000)
                  && (u.minAllocBytes.Some? ==> u.minAllocBytes.value >= 1)
                  && (u.maxTracked.Some? ==> u.maxTracked.value >= 1))
            && q.config.enabled == u.enabled.GetOr(p.config.enabled)
            && (ok ==> q.config.sampleRate == u.sampleRate.GetOr(p.config.sampleRate)
                       && q.config.minAllocBytes == u.minAllocBytes.GetOr(p.config.minAllocBytes)
                       && q.config.maxTracked == u.maxTracked.GetOr(p.config.maxTracked))
            && (u.enabled == Some(false) ==> q.allocations == map[] && q.stacks == map[] && q.tracked == 0 && q.allocationSeq == 0)
            && (u.enabled != Some(false) ==> q.allocations == p.allocations && q.stacks == p.stacks && q.tracked == p.tracked)
  {
  }

  /** The hooks themselves: a null pointer is nothing to record or forget, and a
      disabled profiler records nothing, though it still forgets what is freed. */
  lemma HooksExactly(p: Profile, ptr: Ptr, newPtr: Ptr, usable: nat, stack: Stack)
    ensures Allocated(p, 0, usable, stack) == p && Deallocated(p, 0) == p && Reallocated(p, ptr, 0, usable, stack) == p
    ensures !p.config.enabled ==> Allocated(p, ptr, usable, stack) == p
    ensures !p.config.enabled ==> Reallocated(p, ptr, newPtr, usable, stack).allocations.Keys <= p.allocations.Keys
    ensures ptr !in p.allocations ==> Deallocated(p, ptr) == p
    ensures ptr != 0 && ptr in p.allocations ==>
              Deallocated(p, ptr).allocations == p.allocations - {ptr}
              && Deallocated(p, ptr).sampledDeallocs == Inc(p.sampledDeallocs)
    ensures newPtr != 0 ==>
              Reallocated(p, ptr, newPtr, usable, stack).sampledReallocs == Inc(p.sampledReallocs)
  {
  }
}
