/** The table-maintenance scheduler as a transition system: one dispatcher, a
    fixed pool of workers, a bounded task queue, an unbounded result channel and
    a semaphore (crates/backend/src/table_maintenance.rs).

    Every `await` of the dispatcher and of a worker is a point where the others
    may run, so each action below is what one of them does between two such
    points, or less. */
module Maintenance {
  import opened Basics

  // ---- Tasks ------------------------------------------------------------------

  datatype TaskDefinition = TaskDefinition(
    id: string, intervalOverrideSeconds: Option<nat>, pruneOlderThanHoursOverride: Option<int>,
    compactEnabled: bool, optimizeDirtyIndices: bool)

  datatype RuntimeConfig = RuntimeConfig(
    enabled: bool, scanIntervalSeconds: nat, fragmentThreshold: nat, pruneOlderThanHours: int, workerCount: nat)

  datatype ScheduledTask = ScheduledTask(
    id: string, intervalMs: nat, enabled: bool, fragmentThreshold: nat, pruneOlderThanHours: int,
    optimizeDirtyIndices: bool)

  const USIZE_MAX: nat := 0xFFFF_FFFF_FFFF_FFFF

  /** `resolve_scheduled_task`; the interval is at least one second. */
  function ResolveScheduledTask(d: TaskDefinition, config: RuntimeConfig): ScheduledTask {
    ScheduledTask(
      d.id,
      Max(d.intervalOverrideSeconds.GetOr(config.scanIntervalSeconds), 1) * 1000,
      config.enabled,
      if d.compactEnabled then config.fragmentThreshold else USIZE_MAX,
      d.pruneOlderThanHoursOverride.GetOr(config.pruneOlderThanHours),
      d.optimizeDirtyIndices)
  }

  // ---- State --------------------------------------------------------------------

  /** Where one worker stands. */
  datatype Phase =
    | Idle                            // waiting for the queue
    | Waiting(task: ScheduledTask)    // has a task, waiting for a permit
    | Granted(task: ScheduledTask)    // permit acquired, not counted yet
    | Running(task: ScheduledTask)    // counted in `active_tasks`
    | Finished(task: ScheduledTask)   // uncounted, permit still held
    | Releasing                       // result sent, permit still held

  /** Where the dispatcher stands; `at` is the `now` its tick took. */
  datatype Cursor =
    | Selecting
    | Ticking(at: int, config: RuntimeConfig, next: nat)
    | Sent(at: int, config: RuntimeConfig, next: nat)   // queued, not in `in_flight` yet

  datatype Event =
    | Dispatched(id: string, at: int, scanSeconds: nat)   // under the scan interval of its tick
    | Reported(id: string, at: int, intervalMs: nat)

  /** `lost`, `log` and `peak` only record history: the ids dropped by workers,
      what the dispatcher did, and the largest limit applied so far. */
  datatype State = State(
    defs: seq<TaskDefinition>, now: int, cursor: Cursor,
    queue: seq<ScheduledTask>, workers: seq<Phase>, results: seq<ScheduledTask>,
    inFlight: set<string>, nextDue: map<string, int>,
    available: nat, active: nat, reserved: nat,
    lost: multiset<string>, log: seq<Event>, peak: nat)

  const POOL_SIZE: nat := 32

  function Limit(config: RuntimeConfig): nat {
    Max(config.workerCount, 1)
  }

  function Capacity(s: State): nat {
    Max(|s.defs|, 1) * 2
  }

  function DefIds(defs: seq<TaskDefinition>): set<string> {
    set i | 0 <= i < |defs| :: defs[i].id
  }

  function Start(defs: seq<TaskDefinition>, config: RuntimeConfig, now: int): State {
    State(defs, now, Selecting, [], seq(POOL_SIZE, _ => Idle), [], {}, map id | id in DefIds(defs) :: now,
          Limit(config), 0, 0, multiset{}, [], Limit(config))
  }

  // ---- The semaphore --------------------------------------------------------------

  /** Permits free in the semaphore and permits the dispatcher hoards. */
  datatype Permits = Permits(available: nat, reserved: nat)

  /** The outcome of `adjust_worker_limit`. */
  function Adjusted(p: Permits, active: nat, desired: nat): Permits {
    var accessible := p.available + active;
    if desired > accessible then
      var delta := desired - accessible;
      Permits(p.available + delta, p.reserved - Min(delta, p.reserved))
    else
      var taken := Min(accessible - desired, p.available);
      Permits(p.available - taken, p.reserved + taken)
  }

  /** The semaphore together with the dispatcher's vector of hoarded permits. */
  class WorkerPermits {
    var available: nat
    var reserved: nat

    constructor (permits: nat)
      ensures available == permits && reserved == 0
    {
      available, reserved := permits, 0;
    }

    method AdjustWorkerLimit(active: nat, desired: nat)
      modifies this
      ensures Permits(available, reserved) == Adjusted(old(Permits(available, reserved)), active, desired)
    {
      var accessible := available + active;
      if desired > accessible {
        var delta := desired - accessible;
        while delta > 0 && reserved > 0
          invariant 0 <= delta <= desired - accessible
          invariant available + delta == old(available) + desired - accessible
          invariant reserved + (desired - accessible) == old(reserved) + delta
        {
          reserved := reserved - 1;   // dropping a hoarded permit frees it
          available := available + 1;
          delta := delta - 1;
        }
        if delta > 0 {
          available := available + delta;   // add_permits
        }
        return;
      }
      var excess := accessible - desired;
      while excess > 0
        invariant 0 <= excess <= accessible - desired
        invariant available + (accessible - desired) == old(available) + excess
        invariant reserved + excess == old(reserved) + (accessible - desired)
      {
        if available == 0 {   // try_acquire_owned fails
          break;
        }
        available, reserved := available - 1, reserved + 1;
        excess := excess - 1;
      }
    }
  }

  // ---- Actions --------------------------------------------------------------------

  datatype Action =
    | Advance(ms: nat)              // the clock moves on
    | Tick(config: RuntimeConfig)   // adjust the limit, start walking the definitions
    | Consider                      // one definition, up to and including try_send
    | Record                        // in_flight.insert after a successful send
    | EndTick
    | TakeReport
    | Receive(w: nat)
    | Acquire(w: nat)
    | Count(w: nat)
    | Uncount(w: nat)
    | SendResult(w: nat)
    | Release(w: nat)
    | Notice(w: nat)                // the shutdown channel changed, but not to `true`

  predicate Enabled(s: State, a: Action) {
    match a
    case Advance(_) => true
    case Tick(_) => s.cursor.Selecting?
    case Consider => s.cursor.Ticking? && s.cursor.next < |s.defs|
    case Record => s.cursor.Sent? && s.cursor.next < |s.defs|
    case EndTick => s.cursor.Ticking? && s.cursor.next == |s.defs|
    case TakeReport => s.cursor.Selecting? && s.results != []
    case Receive(w) => w < |s.workers| && s.workers[w].Idle? && s.queue != []
    case Acquire(w) => w < |s.workers| && s.workers[w].Waiting? && s.available > 0
    case Count(w) => w < |s.workers| && s.workers[w].Granted?
    case Uncount(w) => w < |s.workers| && s.workers[w].Running? && s.active > 0
    case SendResult(w) => w < |s.workers| && s.workers[w].Finished?
    case Release(w) => w < |s.workers| && s.workers[w].Releasing?
    case Notice(w) => w < |s.workers| && (s.workers[w].Idle? || s.workers[w].Waiting?)
  }

  function DueAt(s: State, id: string, at: int): int {
    if id in s.nextDue then s.nextDue[id] else at
  }

  /** The three reasons to skip a definition on this tick. */
  predicate Skips(s: State, task: ScheduledTask, at: int) {
    !task.enabled || task.id in s.inFlight || at < DueAt(s, task.id, at)
  }

  function Considered(s: State): State
    requires Enabled(s, Consider)
  {
    var c := s.cursor;
    var task := ResolveScheduledTask(s.defs[c.next], c.config);
    if Skips(s, task, c.at) || |s.queue| >= Capacity(s)
    then s.(cursor := Ticking(c.at, c.config, c.next + 1))
    else s.(queue := s.queue + [task], cursor := Sent(c.at, c.config, c.next))
  }

  function Move(s: State, w: nat, p: Phase): State
    requires w < |s.workers|
  {
    s.(workers := s.workers[w := p])
  }

  function Apply(s: State, a: Action): State
    requires Enabled(s, a)
  {
    match a
    case Advance(ms) => s.(now := s.now + ms)
    case Tick(config) =>
      var p := Adjusted(Permits(s.available, s.reserved), s.active, Limit(config));
      s.(available := p.available, reserved := p.reserved, peak := Max(s.peak, Limit(config)),
         cursor := Ticking(s.now, config, 0))
    case Consider => Considered(s)
    case Record =>
      var c := s.cursor;
      s.(inFlight := s.inFlight + {s.defs[c.next].id}, cursor := Ticking(c.at, c.config, c.next + 1),
         log := s.log + [Dispatched(s.defs[c.next].id, c.at, c.config.scanIntervalSeconds)])
    case EndTick => s.(cursor := Selecting)
    case TakeReport =>
      var r := s.results[0];
      s.(results := s.results[1..], inFlight := s.inFlight - {r.id},
         nextDue := s.nextDue[r.id := s.now + r.intervalMs],
         log := s.log + [Reported(r.id, s.now, r.intervalMs)])
    case Receive(w) => Move(s, w, Waiting(s.queue[0])).(queue := s.queue[1..])
    case Acquire(w) => Move(s, w, Granted(s.workers[w].task)).(available := s.available - 1)
    case Count(w) => Move(s, w, Running(s.workers[w].task)).(active := s.active + 1)
    case Uncount(w) => Move(s, w, Finished(s.workers[w].task)).(active := s.active - 1)
    case SendResult(w) => Move(s, w, Releasing).(results := s.results + [s.workers[w].task])
    case Release(w) => Move(s, w, Idle).(available := s.available + 1)
    case Notice(w) =>
      if s.workers[w].Idle? then s
      else Move(s, w, Idle).(lost := s.lost + multiset{s.workers[w].task.id})
  }

  /** Every action of the run is enabled when its turn comes. */
  predicate ValidRun(s: State, run: seq<Action>)
    decreases |run|
  {
    run == [] || (Enabled(s, run[0]) && ValidRun(Apply(s, run[0]), run[1..]))
  }

  function Execute(s: State, run: seq<Action>): State
    requires ValidRun(s, run)
    decreases |run|
  {
    if run == [] then s else Execute(Apply(s, run[0]), run[1..])
  }

  /** One more step at the end of a run. */
  lemma {:induction false} Extend(s: State, run: seq<Action>, a: Action) returns (longer: seq<Action>)
    requires ValidRun(s, run) && Enabled(Execute(s, run), a)
    ensures longer == run + [a]
    ensures ValidRun(s, longer) && Execute(s, longer) == Apply(Execute(s, run), a)
    decreases |run|
  {
    longer := run + [a];
    if run == [] {
      assert longer == [a] && longer[1..] == [];
    } else {
      assert longer[1..] == run[1..] + [a];
      var _ := Extend(Apply(s, run[0]), run[1..], a);
    }
  }

  // ---- A first task reaches a worker -----------------------------------------------------

  /** With one definition: its task is queued and entered in `in_flight`. */
  lemma DispatchedRun(d: TaskDefinition, config: RuntimeConfig, now: int) returns (run: seq<Action>)
    requires config.enabled
    ensures ValidRun(Start([d], config, now), run)
    ensures var s0, s := Start([d], config, now), Execute(Start([d], config, now), run);
            s == s0.(cursor := Selecting, queue := [ResolveScheduledTask(d, config)], inFlight := {d.id},
                     log := [Dispatched(d.id, now, config.scanIntervalSeconds)])
  {
    var s0 := Start([d], config, now);
    run := Extend(s0, [], Tick(config));
    run := Extend(s0, run, Consider);
    run := Extend(s0, run, Record);
    run := Extend(s0, run, EndTick);
  }

  /** And worker 0 takes it. */
  lemma ReceivedRun(d: TaskDefinition, config: RuntimeConfig, now: int) returns (run: seq<Action>)
    requires config.enabled
    ensures ValidRun(Start([d], config, now), run)
    ensures var s0, s := Start([d], config, now), Execute(Start([d], config, now), run);
            s == s0.(cursor := Selecting, workers := s0.workers[0 := Waiting(ResolveScheduledTask(d, config))],
                     inFlight := {d.id}, log := [Dispatched(d.id, now, config.scanIntervalSeconds)])
  {
    run := DispatchedRun(d, config, now);
    run := Extend(Start([d], config, now), run, Receive(0));
  }

  // ---- Sums over queues and the pool --------------------------------------------------

  function Ids(tasks: seq<ScheduledTask>): multiset<string> {
    if tasks == [] then multiset{} else multiset{tasks[0].id} + Ids(tasks[1..])
  }

  function PhaseIds(p: Phase): multiset<string> {
    if p.Idle? || p.Releasing? then multiset{} else multiset{p.task.id}
  }

  function WorkerIds(workers: seq<Phase>): multiset<string> {
    if workers == [] then multiset{} else PhaseIds(workers[0]) + WorkerIds(workers[1..])
  }

  function HoldsPermit(p: Phase): nat {
    if p.Idle? || p.Waiting? then 0 else 1
  }

  /** Workers that hold a permit. */
  function Held(workers: seq<Phase>): nat {
    if workers == [] then 0 else HoldsPermit(workers[0]) + Held(workers[1..])
  }

  /** Workers that `active_tasks` counts. */
  function Counted(workers: seq<Phase>): nat {
    if workers == [] then 0 else (if workers[0].Running? then 1 else 0) + Counted(workers[1..])
  }

  lemma {:induction false} IdsAppend(tasks: seq<ScheduledTask>, t: ScheduledTask)
    ensures Ids(tasks + [t]) == Ids(tasks) + multiset{t.id}
  {
    if tasks == [] {
      assert tasks + [t] == [t];
    } else {
      assert (tasks + [t])[1..] == tasks[1..] + [t];
      IdsAppend(tasks[1..], t);
    }
  }

  lemma {:induction false} IdsSize(tasks: seq<ScheduledTask>)
    ensures |Ids(tasks)| == |tasks|
  {
    if tasks != [] {
      IdsSize(tasks[1..]);
    }
  }

  lemma Regroup(a: multiset<string>, m: multiset<string>, p: multiset<string>, r: multiset<string>, q: multiset<string>)
    requires m + p == r + q
    ensures (a + m) + p == (a + r) + q
  {
    assert (a + m) + p == a + (m + p);
    assert (a + r) + q == a + (r + q);
  }

  lemma Cancel(a: multiset<string>, b: multiset<string>, x: multiset<string>)
    requires a + x == b + x
    ensures a == b
  {
    forall k: string ensures a[k] == b[k] {
      assert (a + x)[k] == (b + x)[k];
    }
  }

  /** What moving one worker does to the ids the pool holds. */
  lemma {:induction false} MoveIds(workers: seq<Phase>, w: nat, p: Phase)
    requires w < |workers|
    ensures WorkerIds(workers[w := p]) + PhaseIds(workers[w]) == WorkerIds(workers) + PhaseIds(p)
  {
    var moved := workers[w := p];
    if w == 0 {
      assert moved[1..] == workers[1..];
    } else {
      assert moved[1..] == workers[1..][w - 1 := p];
      MoveIds(workers[1..], w - 1, p);
      Regroup(PhaseIds(workers[0]), WorkerIds(moved[1..]), PhaseIds(workers[w]), WorkerIds(workers[1..]), PhaseIds(p));
    }
  }

  /** What moving one worker does to the permits held and counted. */
  lemma {:induction false} MoveSums(workers: seq<Phase>, w: nat, p: Phase)
    requires w < |workers|
    ensures Held(workers[w := p]) + HoldsPermit(workers[w]) == Held(workers) + HoldsPermit(p)
    ensures Counted(workers[w := p]) + (if workers[w].Running? then 1 else 0)
         == Counted(workers) + (if p.Running? then 1 else 0)
  {
    var moved := workers[w := p];
    if w == 0 {
      assert moved[1..] == workers[1..];
    } else {
      assert moved[1..] == workers[1..][w - 1 := p];
      MoveSums(workers[1..], w - 1, p);
    }
  }

  lemma {:induction false} HeldBounds(workers: seq<Phase>)
    ensures Counted(workers) <= Held(workers) <= |workers|
  {
    if workers != [] {
      HeldBounds(workers[1..]);
    }
  }

  lemma {:induction false} AllIdle(n: nat)
    ensures var workers := seq(n, _ => Idle);
            WorkerIds(workers) == multiset{} && Held(workers) == 0 && Counted(workers) == 0
  {
    var workers := seq(n, _ => Idle);
    if n > 0 {
      assert workers[1..] == seq(n - 1, _ => Idle);
      AllIdle(n - 1);
    }
  }
}
