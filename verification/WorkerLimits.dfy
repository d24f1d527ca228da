/** What resizing the semaphore at run time guarantees while workers acquire,
    count, uncount and release (crates/backend/src/table_maintenance.rs). */
module WorkerLimits {
  import opened Basics
  import opened Maintenance

  /** Workers that hold a permit `active_tasks` does not count: `g`. */
  function Uncounted(s: State): int {
    Held(s.workers) - Counted(s.workers)
  }

  /** Permits that are free or with a worker: how many tasks may run at once. */
  function Ceiling(s: State): int {
    s.available + Held(s.workers)
  }

  /** All permits the semaphore was ever given. */
  function Total(s: State): int {
    Ceiling(s) + s.reserved
  }

  ghost predicate Accounted(s: State) {
    && s.active == Counted(s.workers)
    && |s.workers| == POOL_SIZE
    && s.peak <= Total(s) <= s.peak + POOL_SIZE
  }

  lemma StartAccounted(defs: seq<TaskDefinition>, config: RuntimeConfig, now: int)
    ensures Accounted(Start(defs, config, now)) && Total(Start(defs, config, now)) == Limit(config)
  {
    AllIdle(POOL_SIZE);
  }

  /** The permit race: an adjustment made while `g` workers hold an uncounted
      permit leaves max(held, desired + g) permits accessible, not max(held,
      desired). */
  lemma AdjustmentRace(s: State, config: RuntimeConfig)
    requires Accounted(s) && Enabled(s, Tick(config))
    ensures Ceiling(Apply(s, Tick(config))) == Max(Held(s.workers), Limit(config) + Uncounted(s))
  {
    HeldBounds(s.workers);
  }

  /** Actions that hand a permit over, or count it. */
  lemma PermitMoves(s: State, a: Action)
    requires Enabled(s, a) && (a.Acquire? || a.Count? || a.Uncount? || a.Release?)
    requires s.active == Counted(s.workers)
    ensures var t := Apply(s, a);
            Ceiling(t) == Ceiling(s) && t.active == Counted(t.workers)
  {
    var t := Apply(s, a);
    assert t.workers == s.workers[a.w := t.workers[a.w]];
    MoveSums(s.workers, a.w, t.workers[a.w]);
  }

  /** Actions that hand a task over. */
  lemma TaskMoves(s: State, a: Action)
    requires Enabled(s, a) && (a.Receive? || a.SendResult? || a.Notice?)
    ensures var t := Apply(s, a);
            Held(t.workers) == Held(s.workers) && Counted(t.workers) == Counted(s.workers)
  {
    var t := Apply(s, a);
    assert t.workers == s.workers[a.w := t.workers[a.w]];
    MoveSums(s.workers, a.w, t.workers[a.w]);
  }

  /** Every other action keeps the ceiling and the hoard. */
  lemma WorkersKeepCeiling(s: State, a: Action)
    requires Accounted(s) && Enabled(s, a) && !a.Tick?
    ensures var t := Apply(s, a);
            && Ceiling(t) == Ceiling(s) && t.reserved == s.reserved && t.peak == s.peak
            && t.active == Counted(t.workers) && |t.workers| == |s.workers|
  {
    match a
    case Acquire(_) | Count(_) | Uncount(_) | Release(_) => PermitMoves(s, a);
    case Receive(_) | SendResult(_) | Notice(_) => TaskMoves(s, a);
    case _ =>
  }

  lemma StepAccounted(s: State, a: Action)
    requires Accounted(s) && Enabled(s, a)
    ensures Accounted(Apply(s, a))
  {
    if a.Tick? {
      HeldBounds(s.workers);
    } else {
      WorkersKeepCeiling(s, a);
    }
  }

  lemma {:induction false} RunAccounted(s: State, run: seq<Action>)
    requires Accounted(s) && ValidRun(s, run)
    ensures Accounted(Execute(s, run))
    decreases |run|
  {
    if run != [] {
      StepAccounted(s, run[0]);
      RunAccounted(Apply(s, run[0]), run[1..]);
    }
  }

  /** The semaphore is never smaller than the largest limit applied and never
      larger than that limit plus the pool, over every interleaving. */
  lemma TotalBounds(defs: seq<TaskDefinition>, config: RuntimeConfig, now: int, run: seq<Action>)
    requires ValidRun(Start(defs, config, now), run)
    ensures var s := Execute(Start(defs, config, now), run);
            s.peak <= Total(s) <= s.peak + POOL_SIZE
  {
    StartAccounted(defs, config, now);
    RunAccounted(Start(defs, config, now), run);
  }

  /** Every adjustment of the run finds all permit holders counted, as when
      acquiring and counting, and uncounting and releasing, are each one step. */
  predicate Quiet(s: State, run: seq<Action>)
    requires ValidRun(s, run)
    decreases |run|
  {
    run == [] || ((run[0].Tick? ==> Uncounted(s) == 0) && Quiet(Apply(s, run[0]), run[1..]))
  }

  /** The weaker condition that every adjustment needs: none is made that would
      have to add permits because of the uncounted ones. */
  predicate SafeTick(s: State, a: Action) {
    a.Tick? ==> Uncounted(s) == 0 || Limit(a.config) + Uncounted(s) <= Total(s)
  }

  predicate SafeTicks(s: State, run: seq<Action>)
    requires ValidRun(s, run)
    decreases |run|
  {
    run == [] || (SafeTick(s, run[0]) && SafeTicks(Apply(s, run[0]), run[1..]))
  }

  /** At every point of the run the semaphore is as large as the largest limit so far. */
  predicate ConservedThroughout(s: State, run: seq<Action>)
    requires ValidRun(s, run)
    decreases |run|
  {
    Total(s) == s.peak && (run == [] || ConservedThroughout(Apply(s, run[0]), run[1..]))
  }

  /** One adjustment can only break conservation upwards, and does so exactly
      when it has to add permits because of the race. */
  lemma RaceOvershoots(s: State, config: RuntimeConfig)
    requires Accounted(s) && Total(s) == s.peak && Enabled(s, Tick(config))
    ensures var t := Apply(s, Tick(config));
            Total(t) == t.peak <==> SafeTick(s, Tick(config))
  {
    HeldBounds(s.workers);
  }

  lemma {:induction false} ConservedIffSafe(s: State, run: seq<Action>)
    requires Accounted(s) && Total(s) == s.peak && ValidRun(s, run)
    ensures ConservedThroughout(s, run) <==> SafeTicks(s, run)
    ensures ConservedThroughout(s, run) ==> Total(Execute(s, run)) == Execute(s, run).peak
    decreases |run|
  {
    if run != [] {
      var t := Apply(s, run[0]);
      StepAccounted(s, run[0]);
      if run[0].Tick? {
        RaceOvershoots(s, run[0].config);
      } else {
        WorkersKeepCeiling(s, run[0]);
      }
      if Total(t) == t.peak {
        ConservedIffSafe(t, run[1..]);
      }
    }
  }

  lemma {:induction false} QuietIsSafe(s: State, run: seq<Action>)
    requires ValidRun(s, run) && Quiet(s, run)
    ensures SafeTicks(s, run)
    decreases |run|
  {
    if run != [] {
      QuietIsSafe(Apply(s, run[0]), run[1..]);
    }
  }

  /** Permit conservation: the semaphore is throughout exactly as large as the
      largest limit ever applied if and only if no adjustment adds permits because
      of the race; so it is without the race, and lowering and raising reuse permits. */
  lemma PermitsConserved(defs: seq<TaskDefinition>, config: RuntimeConfig, now: int, run: seq<Action>)
    requires ValidRun(Start(defs, config, now), run)
    ensures var s0 := Start(defs, config, now);
            && (ConservedThroughout(s0, run) <==> SafeTicks(s0, run))
            && (Quiet(s0, run) ==> Total(Execute(s0, run)) == Execute(s0, run).peak)
  {
    var s0 := Start(defs, config, now);
    StartAccounted(defs, config, now);
    ConservedIffSafe(s0, run);
    if Quiet(s0, run) {
      QuietIsSafe(s0, run);
    }
  }

  /** The race happens: with any limit, a worker that has its first permit and is
      not counted yet when the next tick comes makes that tick add one. */
  lemma OvershootingRun(d: TaskDefinition, config: RuntimeConfig, now: int) returns (run: seq<Action>)
    requires config.enabled
    ensures ValidRun(Start([d], config, now), run)
    ensures var s := Execute(Start([d], config, now), run);
            s.peak == Limit(config) && Total(s) == Limit(config) + 1
  {
    var s0 := Start([d], config, now);
    run := ReceivedRun(d, config, now);
    run := Extend(s0, run, Acquire(0));
    var held := Execute(s0, run);
    run := Extend(s0, run, Tick(config));
    StartAccounted([d], config, now);
    OneHolder(s0, held.workers[0]);
    assert held.workers == s0.workers[0 := held.workers[0]];
  }

  lemma OneHolder(s: State, granted: Phase)
    requires |s.workers| > 0 && Held(s.workers) == 0 && s.workers[0].Idle? && granted.Granted?
    ensures Held(s.workers[0 := granted]) == 1
  {
    MoveSums(s.workers, 0, granted);
  }

  // ---- The ceiling ------------------------------------------------------------------

  predicate ConstantLimit(run: seq<Action>, limit: nat) {
    forall i :: 0 <= i < |run| ==> run[i].Tick? ==> Limit(run[i].config) == limit
  }

  /** No step of the run raises the ceiling. */
  ghost predicate NeverRises(s: State, run: seq<Action>)
    requires ValidRun(s, run)
    decreases |run|
  {
    run == [] || (Ceiling(Apply(s, run[0])) <= Ceiling(s) && NeverRises(Apply(s, run[0]), run[1..]))
  }

  /** No adjustment asks for more than is accessible, the uncounted permits on top. */
  predicate TicksWithin(s: State, run: seq<Action>)
    requires ValidRun(s, run)
    decreases |run|
  {
    run == [] ||
    ((run[0].Tick? ==> Limit(run[0].config) + Uncounted(s) <= Ceiling(s)) && TicksWithin(Apply(s, run[0]), run[1..]))
  }

  /** Over any run the ceiling never rises if and only if every adjustment asks
      for no more than is accessible. */
  lemma {:induction false} RisesExactly(s: State, run: seq<Action>)
    requires Accounted(s) && ValidRun(s, run)
    ensures NeverRises(s, run) <==> TicksWithin(s, run)
    ensures NeverRises(s, run) ==> Ceiling(Execute(s, run)) <= Ceiling(s)
    decreases |run|
  {
    if run != [] {
      StepAccounted(s, run[0]);
      if run[0].Tick? {
        HeldBounds(s.workers);
        AdjustmentRace(s, run[0].config);
      } else {
        WorkersKeepCeiling(s, run[0]);
      }
      RisesExactly(Apply(s, run[0]), run[1..]);
    }
  }

  /** Under a constant limit the ceiling never falls below it, race or not. */
  lemma {:induction false} CeilingKeepsLimit(s: State, run: seq<Action>, limit: nat)
    requires Accounted(s) && ValidRun(s, run) && ConstantLimit(run, limit) && limit <= Ceiling(s)
    ensures limit <= Ceiling(Execute(s, run))
    decreases |run|
  {
    if run != [] {
      StepAccounted(s, run[0]);
      if run[0].Tick? {
        HeldBounds(s.workers);
        AdjustmentRace(s, run[0].config);
      } else {
        WorkersKeepCeiling(s, run[0]);
      }
      CeilingKeepsLimit(Apply(s, run[0]), run[1..], limit);
    }
  }

  lemma {:induction false} QuietIsWithin(s: State, run: seq<Action>, limit: nat)
    requires Accounted(s) && ValidRun(s, run) && Quiet(s, run) && ConstantLimit(run, limit) && limit <= Ceiling(s)
    ensures TicksWithin(s, run)
    decreases |run|
  {
    if run != [] {
      StepAccounted(s, run[0]);
      assert [run[0]] + run[1..] == run;
      CeilingKeepsLimit(s, [run[0]], limit);
      assert [run[0]][1..] == [];
      QuietIsWithin(Apply(s, run[0]), run[1..], limit);
    }
  }

  /** In every reachable state: along any run the ceiling never rises exactly
      when every adjustment asks for no more than is accessible; under a constant
      limit it does not fall below the limit once it is there; and then, if every
      adjustment finds all holders counted, it does not rise either. */
  lemma CeilingNeverRises(defs: seq<TaskDefinition>, config: RuntimeConfig, now: int,
                          before: seq<Action>, run: seq<Action>, limit: nat)
    requires ValidRun(Start(defs, config, now), before)
    requires ValidRun(Execute(Start(defs, config, now), before), run)
    ensures var s := Execute(Start(defs, config, now), before);
            && (NeverRises(s, run) <==> TicksWithin(s, run))
            && (ConstantLimit(run, limit) && limit <= Ceiling(s) ==> limit <= Ceiling(Execute(s, run)))
            && (ConstantLimit(run, limit) && limit <= Ceiling(s) && Quiet(s, run) ==> NeverRises(s, run))
  {
    var s := Execute(Start(defs, config, now), before);
    StartAccounted(defs, config, now);
    RunAccounted(Start(defs, config, now), before);
    RisesExactly(s, run);
    if ConstantLimit(run, limit) && limit <= Ceiling(s) {
      CeilingKeepsLimit(s, run, limit);
      if Quiet(s, run) {
        QuietIsWithin(s, run, limit);
      }
    }
  }

  /** The ceiling is the limit at every point of the run. */
  ghost predicate AtLimitThroughout(s: State, run: seq<Action>, limit: nat)
    requires ValidRun(s, run)
    decreases |run|
  {
    Ceiling(s) == limit && (run == [] || AtLimitThroughout(Apply(s, run[0]), run[1..], limit))
  }

  lemma {:induction false} StaysExactly(s: State, run: seq<Action>, limit: nat)
    requires Accounted(s) && ValidRun(s, run) && ConstantLimit(run, limit) && Ceiling(s) == limit
    ensures AtLimitThroughout(s, run, limit) <==> Quiet(s, run)
    decreases |run|
  {
    if run != [] {
      StepAccounted(s, run[0]);
      if run[0].Tick? {
        HeldBounds(s.workers);
        AdjustmentRace(s, run[0].config);
      } else {
        WorkersKeepCeiling(s, run[0]);
      }
      if Ceiling(Apply(s, run[0])) == limit {
        StaysExactly(Apply(s, run[0]), run[1..], limit);
      }
    }
  }

  /** Over every run, from a tick on and while the limit stays the same, the
      ceiling is the limit if and only if that tick sees no more holders than the
      limit and no tick meets an uncounted permit. */
  lemma CeilingSettles(defs: seq<TaskDefinition>, config: RuntimeConfig, now: int,
                       before: seq<Action>, next: RuntimeConfig, after: seq<Action>)
    requires ValidRun(Start(defs, config, now), before)
    requires var s := Execute(Start(defs, config, now), before);
             Enabled(s, Tick(next)) && ValidRun(Apply(s, Tick(next)), after) && ConstantLimit(after, Limit(next))
    ensures var s := Execute(Start(defs, config, now), before);
            AtLimitThroughout(Apply(s, Tick(next)), after, Limit(next)) <==>
              Held(s.workers) <= Limit(next) && Uncounted(s) == 0 && Quiet(Apply(s, Tick(next)), after)
  {
    var s := Execute(Start(defs, config, now), before);
    StartAccounted(defs, config, now);
    RunAccounted(Start(defs, config, now), before);
    HeldBounds(s.workers);
    AdjustmentRace(s, next);
    StepAccounted(s, Tick(next));
    if Ceiling(Apply(s, Tick(next))) == Limit(next) {
      StaysExactly(Apply(s, Tick(next)), after, Limit(next));
    }
  }

  lemma {:induction false} AtLimitEnds(s: State, run: seq<Action>, limit: nat)
    requires ValidRun(s, run) && AtLimitThroughout(s, run, limit)
    ensures Ceiling(Execute(s, run)) == limit
    decreases |run|
  {
    if run != [] {
      AtLimitEnds(Apply(s, run[0]), run[1..], limit);
    }
  }

  /** What the setting means: once it has settled, at most `worker_count` tasks
      run at once, or one if that is zero, and as many more can start as are
      missing from it; the pool has 32 workers. */
  lemma RunsWorkerCount(defs: seq<TaskDefinition>, config: RuntimeConfig, now: int,
                        before: seq<Action>, next: RuntimeConfig, after: seq<Action>)
    requires ValidRun(Start(defs, config, now), before)
    requires var s := Execute(Start(defs, config, now), before);
             && Enabled(s, Tick(next)) && ValidRun(Apply(s, Tick(next)), after)
             && (forall i :: 0 <= i < |after| ==> after[i].Tick? ==> after[i].config.workerCount == next.workerCount)
             && Held(s.workers) <= (if next.workerCount == 0 then 1 else next.workerCount)
             && Uncounted(s) == 0 && Quiet(Apply(s, Tick(next)), after)
    ensures var s := Execute(Start(defs, config, now), before);
            var t := Execute(Apply(s, Tick(next)), after);
            var count := if next.workerCount == 0 then 1 else next.workerCount;
            && t.available == count - Held(t.workers) && Counted(t.workers) <= count && |t.workers| == 32
  {
    var s := Execute(Start(defs, config, now), before);
    var u := Apply(s, Tick(next));
    CeilingSettles(defs, config, now, before, next, after);
    AtLimitEnds(u, after, Limit(next));
    StartAccounted(defs, config, now);
    RunAccounted(Start(defs, config, now), before);
    StepAccounted(s, Tick(next));
    RunAccounted(u, after);
    HeldBounds(Execute(u, after).workers);
  }
}
