/** Resizing the semaphore when a worker may move between the two reads of an
    adjustment: the count of active tasks is read first, the available permits
    after it (crates/backend/src/table_maintenance.rs). */
module SplitRead {
  import opened Basics
  import opened Maintenance
  import opened WorkerLimits

  /** A move of a worker, or of the clock. */
  predicate Between(a: Action) {
    a.Advance? || a.Receive? || a.Acquire? || a.Count? || a.Uncount? || a.SendResult? || a.Release? || a.Notice?
  }

  datatype Step =
    | Plain(a: Action)                                  // anything but an adjustment
    | Adjust(config: RuntimeConfig, between: seq<Action>)   // an adjustment, and what happened between its reads

  predicate Possible(s: State, e: Step) {
    match e
    case Plain(a) => !a.Tick? && Enabled(s, a)
    case Adjust(_, between) =>
      s.cursor.Selecting? && ValidRun(s, between) && forall i :: 0 <= i < |between| ==> Between(between[i])
  }

  /** The adjustment uses the count from before and the permits from after. */
  function AdjustedFrom(t: State, active: nat, config: RuntimeConfig): State {
    var p := Adjusted(Permits(t.available, t.reserved), active, Limit(config));
    t.(available := p.available, reserved := p.reserved, peak := Max(t.peak, Limit(config)),
       cursor := Ticking(t.now, config, 0))
  }

  function Next(s: State, e: Step): State
    requires Possible(s, e)
  {
    match e
    case Plain(a) => Apply(s, a)
    case Adjust(config, between) => AdjustedFrom(Execute(s, between), s.active, config)
  }

  predicate ValidSteps(s: State, steps: seq<Step>)
    decreases |steps|
  {
    steps == [] || (Possible(s, steps[0]) && ValidSteps(Next(s, steps[0]), steps[1..]))
  }

  function Take(s: State, steps: seq<Step>): State
    requires ValidSteps(s, steps)
    decreases |steps|
  {
    if steps == [] then s else Take(Next(s, steps[0]), steps[1..])
  }

  /** With nothing between the reads it is the adjustment in one step. */
  lemma AtomicAdjustment(s: State, config: RuntimeConfig)
    requires s.cursor.Selecting?
    ensures Possible(s, Adjust(config, [])) && Next(s, Adjust(config, [])) == Apply(s, Tick(config))
  {
  }

  function Lift(a: Action): Step {
    if a.Tick? then Adjust(a.config, []) else Plain(a)
  }

  function Lifted(run: seq<Action>): seq<Step> {
    if run == [] then [] else [Lift(run[0])] + Lifted(run[1..])
  }

  /** So every run with adjustments in one step is one of these runs. */
  lemma {:induction false} LiftedRun(s: State, run: seq<Action>)
    requires ValidRun(s, run)
    ensures ValidSteps(s, Lifted(run)) && Take(s, Lifted(run)) == Execute(s, run)
    decreases |run|
  {
    if run != [] {
      LiftedStep(s, run[0]);
      LiftedRun(Apply(s, run[0]), run[1..]);
      assert Lifted(run)[1..] == Lifted(run[1..]);
    }
  }

  lemma LiftedStep(s: State, a: Action)
    requires Enabled(s, a)
    ensures Possible(s, Lift(a)) && Next(s, Lift(a)) == Apply(s, a)
  {
    if a.Tick? {
      AtomicAdjustment(s, a.config);
    }
  }

  /** What holds in every reachable state; the lower bound of one-step
      adjustments is not among it. */
  ghost predicate Counts(s: State) {
    s.active == Counted(s.workers) && |s.workers| == POOL_SIZE && Total(s) <= s.peak + POOL_SIZE
  }

  lemma MoveCounts(s: State, a: Action)
    requires Counts(s) && Enabled(s, a) && !a.Tick?
    ensures Counts(Apply(s, a)) && Total(Apply(s, a)) == Total(s) && Apply(s, a).peak == s.peak
  {
    match a
    case Acquire(_) | Count(_) | Uncount(_) | Release(_) => PermitMoves(s, a);
    case Receive(_) | SendResult(_) | Notice(_) => TaskMoves(s, a);
    case _ =>
  }

  lemma {:induction false} BetweenCounts(s: State, between: seq<Action>)
    requires Counts(s) && ValidRun(s, between) && forall i :: 0 <= i < |between| ==> Between(between[i])
    ensures Counts(Execute(s, between)) && Total(Execute(s, between)) == Total(s) && Execute(s, between).peak == s.peak
    decreases |between|
  {
    if between != [] {
      MoveCounts(s, between[0]);
      BetweenCounts(Apply(s, between[0]), between[1..]);
    }
  }

  /** The race in full: with `t` the state at the second read and `active` the
      count from the first, the adjustment leaves held + max(0, desired - active)
      permits accessible, and adds permits up to desired + held - active. */
  lemma SplitRace(t: State, active: nat, config: RuntimeConfig)
    ensures var u := AdjustedFrom(t, active, config);
            && Ceiling(u) == Max(Held(t.workers), Limit(config) + Held(t.workers) - active)
            && Total(u) == Max(Total(t), Limit(config) + Held(t.workers) - active)
  {
  }

  lemma StepCounts(s: State, e: Step)
    requires Counts(s) && Possible(s, e)
    ensures Counts(Next(s, e)) && Total(s) <= Total(Next(s, e))
  {
    match e
    case Plain(a) => MoveCounts(s, a);
    case Adjust(config, between) =>
      BetweenCounts(s, between);
      HeldBounds(Execute(s, between).workers);
      SplitRace(Execute(s, between), s.active, config);
  }

  lemma {:induction false} RunCounts(s: State, steps: seq<Step>)
    requires Counts(s) && ValidSteps(s, steps)
    ensures Counts(Take(s, steps)) && Total(s) <= Total(Take(s, steps))
    decreases |steps|
  {
    if steps != [] {
      StepCounts(s, steps[0]);
      RunCounts(Next(s, steps[0]), steps[1..]);
    }
  }

  /** The upper bound stands: over every run with split reads the semaphore is
      never larger than the largest limit applied plus the pool, and it never shrinks. */
  lemma SplitTotalBound(defs: seq<TaskDefinition>, config: RuntimeConfig, now: int, steps: seq<Step>)
    requires ValidSteps(Start(defs, config, now), steps)
    ensures var s := Take(Start(defs, config, now), steps);
            Limit(config) <= Total(s) <= s.peak + POOL_SIZE
  {
    StartAccounted(defs, config, now);
    RunCounts(Start(defs, config, now), steps);
  }

  /** The lower bound does not: an adjustment leaves the semaphore smaller than
      the limit it applies if and only if it was smaller before and permits were
      returned between the reads, more than were counted at the second. */
  lemma ShortExactly(s: State, config: RuntimeConfig, between: seq<Action>)
    requires Counts(s) && Possible(s, Adjust(config, between))
    ensures Total(Next(s, Adjust(config, between))) < Limit(config) <==>
              Total(s) < Limit(config) && Held(Execute(s, between).workers) < s.active
  {
    BetweenCounts(s, between);
    SplitRace(Execute(s, between), s.active, config);
  }

  // ---- A run that leaves the semaphore short ----------------------------------------------

  lemma {:induction false} Onward(s: State, steps: seq<Step>, e: Step) returns (longer: seq<Step>)
    requires ValidSteps(s, steps) && Possible(Take(s, steps), e)
    ensures ValidSteps(s, longer) && Take(s, longer) == Next(Take(s, steps), e)
    decreases |steps|
  {
    longer := steps + [e];
    if steps == [] {
      assert longer == [e] && longer[1..] == [];
    } else {
      var rest := Onward(Next(s, steps[0]), steps[1..], e);
      longer := [steps[0]] + rest;
      assert longer[1..] == rest;
    }
  }

  /** Its worker is running when the next adjustment reads the count. */
  lemma RunningSteps(d: TaskDefinition, config: RuntimeConfig, now: int) returns (steps: seq<Step>)
    requires config.enabled
    ensures ValidSteps(Start([d], config, now), steps)
    ensures var s0, s := Start([d], config, now), Take(Start([d], config, now), steps);
            && s.cursor.Selecting? && s.active == 1 && s.workers == s0.workers[0 := Running(ResolveScheduledTask(d, config))]
            && s.available == Limit(config) - 1 && s.reserved == 0
  {
    var s0 := Start([d], config, now);
    var run := ReceivedRun(d, config, now);
    LiftedRun(s0, run);
    steps := Lifted(run);
    steps := Onward(s0, steps, Plain(Acquire(0)));
    steps := Onward(s0, steps, Plain(Count(0)));
  }

  /** It finishes and returns its permit before the permits are read. */
  lemma Finishing(s: State) returns (between: seq<Action>)
    requires |s.workers| > 0 && s.workers[0].Running? && s.active == 1
    ensures ValidRun(s, between) && forall i :: 0 <= i < |between| ==> Between(between[i])
    ensures var t := Execute(s, between);
            t.workers == s.workers[0 := Idle] && t.available == s.available + 1 && t.reserved == s.reserved
  {
    between := Extend(s, [], Uncount(0));
    between := Extend(s, between, SendResult(0));
    between := Extend(s, between, Release(0));
  }

  /** Raising the limit by one at that moment leaves the semaphore as it was. */
  lemma ShortRun(d: TaskDefinition, config: RuntimeConfig, next: RuntimeConfig, now: int) returns (steps: seq<Step>)
    requires config.enabled && Limit(next) == Limit(config) + 1
    ensures ValidSteps(Start([d], config, now), steps)
    ensures var s := Take(Start([d], config, now), steps);
            s.peak >= Limit(next) && Total(s) == Limit(config)
  {
    var s0 := Start([d], config, now);
    steps := RunningSteps(d, config, now);
    var s := Take(s0, steps);
    var between := Finishing(s);
    AllIdle(POOL_SIZE);
    assert Execute(s, between).workers == s0.workers;
    SplitRace(Execute(s, between), s.active, next);
    steps := Onward(s0, steps, Adjust(next, between));
  }
}
