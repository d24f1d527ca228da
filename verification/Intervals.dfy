/** How long a task rests between its report and its next dispatch, in the terms
    of its definition and of the configuration that dispatched it
    (crates/backend/src/table_maintenance.rs). */
module Intervals {
  import opened Basics
  import opened Maintenance
  import opened SingleFlight

  ghost predicate DistinctIds(defs: seq<TaskDefinition>) {
    forall i, j :: 0 <= i < j < |defs| ==> defs[i].id != defs[j].id
  }

  /** The rest of a definition in milliseconds, under a global scan interval in
      seconds: its override if it has one, and at least a second. */
  function RestMs(d: TaskDefinition, scanSeconds: nat): nat {
    match d.intervalOverrideSeconds
    case Some(seconds) => if seconds >= 1 then 1000 * seconds else 1000
    case None => if scanSeconds >= 1 then 1000 * scanSeconds else 1000
  }

  /** The scan interval of the tick that last dispatched `id`. */
  function LastScan(log: seq<Event>, id: string): nat {
    if log == [] then 0
    else
      var e := log[|log| - 1];
      if e.Dispatched? && e.id == id then e.scanSeconds else LastScan(log[..|log| - 1], id)
  }

  /** The same, counting the dispatch in progress. */
  function ScanOf(s: State, id: string): nat {
    if id in Pending(s) then s.cursor.config.scanIntervalSeconds else LastScan(s.log, id)
  }

  ghost predicate WasDispatched(log: seq<Event>, id: string) {
    exists i :: 0 <= i < |log| && log[i].Dispatched? && log[i].id == id
  }

  /** The instance carries the interval of its definition under that scan interval. */
  ghost predicate Stamped(s: State, t: ScheduledTask) {
    && (t.id in Pending(s) || WasDispatched(s.log, t.id))
    && exists i :: 0 <= i < |s.defs| && s.defs[i].id == t.id && t.intervalMs == RestMs(s.defs[i], ScanOf(s, t.id))
  }

  ghost predicate AllStamped(s: State) {
    && (forall t :: t in s.queue ==> Stamped(s, t))
    && (forall w :: 0 <= w < |s.workers| && !s.workers[w].Idle? && !s.workers[w].Releasing? ==> Stamped(s, s.workers[w].task))
    && (forall t :: t in s.results ==> Stamped(s, t))
  }

  /** Every report in the log carries the interval of the dispatch before it. */
  ghost predicate ReportFits(defs: seq<TaskDefinition>, log: seq<Event>, j: nat)
    requires j < |log|
  {
    log[j].Reported? ==>
      && WasDispatched(log[..j], log[j].id)
      && exists i :: 0 <= i < |defs| && defs[i].id == log[j].id
                  && log[j].intervalMs == RestMs(defs[i], LastScan(log[..j], log[j].id))
  }

  ghost predicate LogFits(s: State) {
    forall j :: 0 <= j < |s.log| ==> ReportFits(s.defs, s.log, j)
  }

  // ---- Instances keep their stamp ------------------------------------------------------

  lemma {:induction false} QueuedHasId(tasks: seq<ScheduledTask>, t: ScheduledTask)
    requires t in tasks
    ensures t.id in Ids(tasks)
  {
    if tasks[0] != t {
      assert tasks == [tasks[0]] + tasks[1..];
      QueuedHasId(tasks[1..], t);
    }
  }

  lemma {:induction false} HeldHasId(workers: seq<Phase>, w: nat)
    requires w < |workers| && !workers[w].Idle? && !workers[w].Releasing?
    ensures workers[w].task.id in WorkerIds(workers)
  {
    if w > 0 {
      HeldHasId(workers[1..], w - 1);
    }
  }

  /** A stamp survives while the scan interval of its id does. */
  lemma StampKept(s: State, u: State, t: ScheduledTask)
    requires Stamped(s, t) && u.defs == s.defs && ScanOf(u, t.id) == ScanOf(s, t.id)
    requires s.log <= u.log && (t.id in Pending(s) ==> t.id in Pending(u) || WasDispatched(u.log, t.id))
    ensures Stamped(u, t)
  {
  }

  /** Steps that leave every scan interval alone and only move instances. */
  lemma MovedStamped(s: State, u: State)
    requires AllStamped(s) && u.defs == s.defs && forall id :: ScanOf(u, id) == ScanOf(s, id)
    requires s.log <= u.log && forall id :: id in Pending(s) ==> id in Pending(u) || WasDispatched(u.log, id)
    requires forall t :: t in u.queue ==> Instance(s, t)
    requires forall w :: 0 <= w < |u.workers| && !u.workers[w].Idle? && !u.workers[w].Releasing? ==> Instance(s, u.workers[w].task)
    requires forall t :: t in u.results ==> Instance(s, t)
    ensures AllStamped(u)
  {
    forall t | Instance(s, t) ensures Stamped(u, t) {
      InstanceStamped(s, t);
      StampKept(s, u, t);
    }
  }

  /** `t` is somewhere in `s`. */
  ghost predicate Instance(s: State, t: ScheduledTask) {
    || t in s.queue || t in s.results
    || exists w :: 0 <= w < |s.workers| && !s.workers[w].Idle? && !s.workers[w].Releasing? && s.workers[w].task == t
  }

  lemma InstanceStamped(s: State, t: ScheduledTask)
    requires AllStamped(s) && Instance(s, t)
    ensures Stamped(s, t)
  {
  }

  lemma InstanceHasId(s: State, t: ScheduledTask)
    requires Instance(s, t)
    ensures t.id in Instances(s)
  {
    if t in s.queue {
      QueuedHasId(s.queue, t);
    } else if t in s.results {
      QueuedHasId(s.results, t);
    } else {
      var w :| 0 <= w < |s.workers| && !s.workers[w].Idle? && !s.workers[w].Releasing? && s.workers[w].task == t;
      HeldHasId(s.workers, w);
    }
  }

  lemma WorkerKeepsInstances(s: State, a: Action)
    requires Enabled(s, a) && IsWorkerAction(a)
    ensures var u := Apply(s, a);
            && (forall t :: t in u.queue ==> Instance(s, t))
            && (forall w :: 0 <= w < |u.workers| && !u.workers[w].Idle? && !u.workers[w].Releasing? ==> Instance(s, u.workers[w].task))
            && (forall t :: t in u.results ==> Instance(s, t))
  {
    var u := Apply(s, a);
    forall w | 0 <= w < |u.workers| && !u.workers[w].Idle? && !u.workers[w].Releasing? ensures Instance(s, u.workers[w].task) {
      if w != a.w {
        assert u.workers[w] == s.workers[w];
      }
    }
  }

  lemma ConsiderStamped(s: State)
    requires Conserved(s) && AllStamped(s) && Enabled(s, Consider)
    ensures AllStamped(Apply(s, Consider))
  {
    var u := Apply(s, Consider);
    if u.cursor.Sent? {
      var task := ResolveScheduledTask(s.defs[s.cursor.next], s.cursor.config);
      assert Pending(u) == {task.id} && task.id !in s.inFlight;
      assert Stamped(u, task) by {
        assert s.defs[s.cursor.next].id == task.id;
        ResolvedRest(s.defs[s.cursor.next], s.cursor.config);
      }
      forall t | Instance(s, t) ensures Stamped(u, t) {
        InstanceStamped(s, t);
        InstanceHasId(s, t);
        LiveIsInFlight(s, t.id);
        StampKept(s, u, t);
      }
    } else {
      assert Pending(u) == Pending(s);
      MovedStamped(s, u);
    }
  }

  lemma LiveIsInFlight(s: State, id: string)
    requires Conserved(s) && id in Instances(s)
    ensures id in s.inFlight + Pending(s)
  {
    assert (Instances(s) + s.lost)[id] == multiset(s.inFlight + Pending(s))[id];
  }

  lemma ResolvedRest(d: TaskDefinition, config: RuntimeConfig)
    ensures ResolveScheduledTask(d, config).intervalMs == RestMs(d, config.scanIntervalSeconds)
  {
  }

  lemma LastScanPush(log: seq<Event>, e: Event, id: string)
    ensures LastScan(log + [e], id) == if e.Dispatched? && e.id == id then e.scanSeconds else LastScan(log, id)
  {
    assert (log + [e])[..|log|] == log;
  }

  lemma RecordStamped(s: State)
    requires AllStamped(s) && Enabled(s, Record)
    ensures AllStamped(Apply(s, Record))
  {
    var u := Apply(s, Record);
    forall id ensures ScanOf(u, id) == ScanOf(s, id) {
      LastScanPush(s.log, u.log[|s.log|], id);
    }
    assert u.log[|s.log|].Dispatched?;
    MovedStamped(s, u);
  }

  lemma ReportStamped(s: State)
    requires AllStamped(s) && Enabled(s, TakeReport)
    ensures AllStamped(Apply(s, TakeReport))
  {
    var u := Apply(s, TakeReport);
    forall id ensures ScanOf(u, id) == ScanOf(s, id) {
      LastScanPush(s.log, u.log[|s.log|], id);
    }
    assert s.results == [s.results[0]] + u.results;
    MovedStamped(s, u);
  }

  lemma OthersStamped(s: State, a: Action)
    requires AllStamped(s) && Enabled(s, a) && (a.Advance? || a.Tick? || a.EndTick?)
    ensures AllStamped(Apply(s, a))
  {
    var u := Apply(s, a);
    assert Pending(u) == Pending(s) && u.log == s.log;
    MovedStamped(s, u);
  }

  lemma WorkerStamped(s: State, a: Action)
    requires AllStamped(s) && Enabled(s, a) && IsWorkerAction(a)
    ensures AllStamped(Apply(s, a))
  {
    var u := Apply(s, a);
    DispatcherKept(s, a);
    WorkerKeepsInstances(s, a);
    assert Pending(u) == Pending(s) && u.log == s.log;
    MovedStamped(s, u);
  }

  lemma StepStamped(s: State, a: Action)
    requires Conserved(s) && AllStamped(s) && Enabled(s, a)
    ensures AllStamped(Apply(s, a))
  {
    match a
    case Consider => ConsiderStamped(s);
    case Record => RecordStamped(s);
    case TakeReport => ReportStamped(s);
    case Advance(_) | Tick(_) | EndTick => OthersStamped(s, a);
    case _ => WorkerStamped(s, a);
  }

  // ---- The log ---------------------------------------------------------------------------

  lemma LogPush(s: State, u: State, e: Event)
    requires LogFits(s) && u.defs == s.defs && u.log == s.log + [e]
    requires e.Reported? ==> WasDispatched(s.log, e.id)
    requires e.Reported? ==>
               exists i :: 0 <= i < |s.defs| && s.defs[i].id == e.id
                           && e.intervalMs == RestMs(s.defs[i], LastScan(s.log, e.id))
    ensures LogFits(u)
  {
    forall j | 0 <= j < |u.log| ensures ReportFits(u.defs, u.log, j) {
      if j < |s.log| {
        assert ReportFits(s.defs, s.log, j);
        assert u.log[..j] == s.log[..j] && u.log[j] == s.log[j];
      } else {
        assert u.log[..j] == s.log;
      }
    }
  }

  lemma StepLogFits(s: State, a: Action)
    requires Conserved(s) && AllStamped(s) && LogFits(s) && Enabled(s, a)
    ensures LogFits(Apply(s, a))
  {
    var u := Apply(s, a);
    if a.TakeReport? {
      assert s.results[0] in s.results && Stamped(s, s.results[0]);
      LogPush(s, u, u.log[|s.log|]);
    } else if a.Record? {
      LogPush(s, u, u.log[|s.log|]);
    } else {
      assert u.log == s.log && u.defs == s.defs;
    }
  }

  lemma {:induction false} RunFits(s: State, run: seq<Action>)
    requires Conserved(s) && AllStamped(s) && LogFits(s) && ValidRun(s, run)
    ensures LogFits(Execute(s, run)) && Execute(s, run).defs == s.defs
    decreases |run|
  {
    if run != [] {
      StepConserves(s, run[0]);
      StepStamped(s, run[0]);
      StepLogFits(s, run[0]);
      RunFits(Apply(s, run[0]), run[1..]);
    }
  }

  /** `i` is the last dispatch of its id before position `j`. */
  ghost predicate DispatchBefore(log: seq<Event>, i: nat, j: nat, id: string)
    requires j <= |log|
  {
    && i < j && log[i].Dispatched? && log[i].id == id
    && forall k :: i < k < j ==> !(log[k].Dispatched? && log[k].id == id)
  }

  lemma {:induction false} LastScanIs(log: seq<Event>, i: nat, j: nat, id: string)
    requires j <= |log| && DispatchBefore(log, i, j, id)
    ensures LastScan(log[..j], id) == log[i].scanSeconds
  {
    assert log[..j][..j - 1] == log[..j - 1];
    if i < j - 1 {
      LastScanIs(log, i, j - 1, id);
    }
  }

  lemma {:induction false} LastDispatch(log: seq<Event>, j: nat, id: string) returns (i: nat)
    requires j <= |log| && WasDispatched(log[..j], id)
    ensures DispatchBefore(log, i, j, id)
  {
    var x :| 0 <= x < j && log[..j][x].Dispatched? && log[..j][x].id == id;
    i := j - 1;
    if !(log[i].Dispatched? && log[i].id == id) {
      assert log[..j - 1][x] == log[x];
      i := LastDispatch(log, j - 1, id);
    }
  }

  /** Over every run from the start: a report of definition `n` follows a dispatch
      `i` of it, and the next dispatch comes no earlier after the report than the
      definition's override, or else the scan interval of the tick of `i`, in
      whole seconds and at least one. */
  lemma RestsInSeconds(defs: seq<TaskDefinition>, config: RuntimeConfig, now: int, run: seq<Action>,
                       n: nat, j: nat, k: nat) returns (i: nat)
    requires DistinctIds(defs) && n < |defs| && ValidRun(Start(defs, config, now), run)
    requires var log := Execute(Start(defs, config, now), run).log;
             && j < k < |log|
             && log[j].Reported? && log[j].id == defs[n].id
             && log[k].Dispatched? && log[k].id == defs[n].id
    ensures DispatchBefore(Execute(Start(defs, config, now), run).log, i, j, defs[n].id)
    ensures var log := Execute(Start(defs, config, now), run).log;
            var seconds := match defs[n].intervalOverrideSeconds case Some(o) => o case None => log[i].scanSeconds;
            log[k].at >= log[j].at + 1000 * Max(seconds, 1)
  {
    var s0 := Start(defs, config, now);
    StartConserved(defs, config, now);
    assert AllStamped(s0) && LogFits(s0);
    RunFits(s0, run);
    DispatchesSpaced(defs, config, now, run);
    var s := Execute(s0, run);
    assert Respects(s.log, j, k);
    assert ReportFits(s.defs, s.log, j);
    i := LastDispatch(s.log, j, defs[n].id);
    LastScanIs(s.log, i, j, defs[n].id);
  }

  // ---- One scan interval ---------------------------------------------------------------

  predicate SameScan(run: seq<Action>, scanSeconds: nat) {
    forall i :: 0 <= i < |run| ==> run[i].Tick? ==> run[i].config.scanIntervalSeconds == scanSeconds
  }

  ghost predicate Scanned(s: State, scanSeconds: nat) {
    && (!s.cursor.Selecting? ==> s.cursor.config.scanIntervalSeconds == scanSeconds)
    && forall i :: 0 <= i < |s.log| && s.log[i].Dispatched? ==> s.log[i].scanSeconds == scanSeconds
  }

  lemma {:induction false} RunScanned(s: State, run: seq<Action>, scanSeconds: nat)
    requires Scanned(s, scanSeconds) && ValidRun(s, run) && SameScan(run, scanSeconds)
    ensures Scanned(Execute(s, run), scanSeconds)
    decreases |run|
  {
    if run != [] {
      RunScanned(Apply(s, run[0]), run[1..], scanSeconds);
    }
  }

  /** While the scan interval stays the same, a definition without an override is
      never dispatched within that many seconds of its last report, and one with
      an override never within its own. */
  lemma RestsUnderOneScan(defs: seq<TaskDefinition>, config: RuntimeConfig, now: int, run: seq<Action>,
                          n: nat, j: nat, k: nat, scanSeconds: nat)
    requires DistinctIds(defs) && n < |defs| && ValidRun(Start(defs, config, now), run) && SameScan(run, scanSeconds)
    requires var log := Execute(Start(defs, config, now), run).log;
             && j < k < |log|
             && log[j].Reported? && log[j].id == defs[n].id
             && log[k].Dispatched? && log[k].id == defs[n].id
    ensures var log := Execute(Start(defs, config, now), run).log;
            var seconds := match defs[n].intervalOverrideSeconds case Some(o) => o case None => scanSeconds;
            log[k].at >= log[j].at + 1000 * Max(seconds, 1)
  {
    var i := RestsInSeconds(defs, config, now, run, n, j, k);
    RunScanned(Start(defs, config, now), run, scanSeconds);
  }

  // ---- Nor any later ---------------------------------------------------------------------

  /** When an id falls due: at the start, and again when it has rested after its last report. */
  function DueFrom(log: seq<Event>, id: string, start: int): int {
    if log == [] then start
    else
      var e := log[|log| - 1];
      if e.Reported? && e.id == id then e.at + e.intervalMs else DueFrom(log[..|log| - 1], id, start)
  }

  ghost predicate DueTimes(s: State, start: int) {
    && start <= s.now && (!s.cursor.Selecting? ==> start <= s.cursor.at)
    && forall id :: id in DefIds(s.defs) ==> id in s.nextDue && s.nextDue[id] == DueFrom(s.log, id, start)
  }

  lemma StepDue(s: State, a: Action, start: int)
    requires DueTimes(s, start) && Enabled(s, a)
    ensures DueTimes(Apply(s, a), start)
  {
    var u := Apply(s, a);
    if a.TakeReport? || a.Record? {
      forall id ensures DueFrom(u.log, id, start) ==
          if a.TakeReport? && s.results[0].id == id then s.now + s.results[0].intervalMs else DueFrom(s.log, id, start) {
        assert u.log[..|u.log| - 1] == s.log;
      }
    }
  }

  lemma {:induction false} RunDue(s: State, run: seq<Action>, start: int)
    requires DueTimes(s, start) && ValidRun(s, run)
    ensures DueTimes(Execute(s, run), start) && Execute(s, run).defs == s.defs
    decreases |run|
  {
    if run != [] {
      StepDue(s, run[0], start);
      RunDue(Apply(s, run[0]), run[1..], start);
    }
  }

  /** Over every run from the start: when a tick with the scheduler enabled has
      gone through the definitions, each is in flight unless it is still resting
      after its last report. */
  lemma DispatchedOnceRested(defs: seq<TaskDefinition>, config: RuntimeConfig, now: int, run: seq<Action>, n: nat)
    requires n < |defs| && ValidRun(Start(defs, config, now), run)
    requires var s := Execute(Start(defs, config, now), run); Enabled(s, EndTick) && s.cursor.config.enabled
    ensures var s := Execute(Start(defs, config, now), run);
            defs[n].id in s.inFlight || s.cursor.at < DueFrom(s.log, defs[n].id, now)
  {
    var s0 := Start(defs, config, now);
    RunDue(s0, run, now);
    var s := Execute(s0, run);
    assert defs[n].id in DefIds(s.defs);
    if s.cursor.at >= DueFrom(s.log, defs[n].id, now) {
      DueTasksDispatched(defs, config, now, run, n);
    }
  }

  lemma NeverReportedIsDue(log: seq<Event>, id: string, start: int)
    requires forall i :: 0 <= i < |log| ==> !(log[i].Reported? && log[i].id == id)
    ensures DueFrom(log, id, start) == start
  {
  }

  // ---- What one look at a definition decides ----------------------------------------------

  /** A definition is sent exactly when the scheduler is enabled, its id is not in
      flight and it is not before its due time; it goes to the end of the queue. */
  lemma SendsExactly(s: State)
    requires Conserved(s) && Enabled(s, Consider)
    ensures var d := s.defs[s.cursor.next];
            var u := Apply(s, Consider);
            && (u.cursor.Sent? <==> s.cursor.config.enabled && d.id !in s.inFlight
                                    && (d.id in s.nextDue ==> s.nextDue[d.id] <= s.cursor.at))
            && (u.cursor.Sent? ==> |u.queue| == |s.queue| + 1 && s.queue <= u.queue && u.queue[|s.queue|].id == d.id)
            && (!u.cursor.Sent? ==> u.queue == s.queue && u.cursor.next == s.cursor.next + 1)
  {
    QueueNeverFull(s);
  }

  /** What a task takes over from its definition and what from the configuration. */
  lemma ResolvedTask(d: TaskDefinition, config: RuntimeConfig)
    ensures var t := ResolveScheduledTask(d, config);
            && t.id == d.id && t.enabled == config.enabled && t.intervalMs == RestMs(d, config.scanIntervalSeconds)
            && (d.compactEnabled ==> t.fragmentThreshold == config.fragmentThreshold)
            && (!d.compactEnabled ==> t.fragmentThreshold == 0xFFFF_FFFF_FFFF_FFFF)
            && (d.pruneOlderThanHoursOverride == Some(t.pruneOlderThanHours)
                || (d.pruneOlderThanHoursOverride.None? && t.pruneOlderThanHours == config.pruneOlderThanHours))
            && t.optimizeDirtyIndices == d.optimizeDirtyIndices
  {
  }
}
