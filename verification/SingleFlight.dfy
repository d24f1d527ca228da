/** No maintenance task is ever in two places at once, and none is dispatched
    before its interval has passed (crates/backend/src/table_maintenance.rs). */
module SingleFlight {
  import opened Maintenance

  /** Every instance of a task, wherever it is. */
  function Instances(s: State): multiset<string> {
    Ids(s.queue) + WorkerIds(s.workers) + Ids(s.results)
  }

  /** The id that is queued but not yet entered in `in_flight`. */
  function Pending(s: State): set<string> {
    if s.cursor.Sent? && s.cursor.next < |s.defs| then {s.defs[s.cursor.next].id} else {}
  }

  /** Conservation: instances and lost ids together are `in_flight` and the
      pending id, each exactly once. */
  ghost predicate Conserved(s: State) {
    && Instances(s) + s.lost == multiset(s.inFlight + Pending(s))
    && s.inFlight !! Pending(s)
    && s.inFlight + Pending(s) <= DefIds(s.defs)
    && (!s.cursor.Selecting? ==> s.cursor.at <= s.now)
    && (s.cursor.Sent? ==> s.cursor.next < |s.defs|)
  }

  lemma StartConserved(defs: seq<TaskDefinition>, config: RuntimeConfig, now: int)
    ensures Conserved(Start(defs, config, now))
  {
    AllIdle(POOL_SIZE);
  }

  lemma SetAdd(a: set<string>, x: string)
    requires x !in a
    ensures multiset(a + {x}) == multiset(a) + multiset{x}
  {
  }

  lemma SetRemove(a: set<string>, x: string)
    requires x in a
    ensures multiset(a - {x}) + multiset{x} == multiset(a)
  {
  }

  /** Queueing a task adds one instance of its id. */
  lemma QueueingAdds(s: State, task: ScheduledTask)
    ensures Instances(s.(queue := s.queue + [task])) == Instances(s) + multiset{task.id}
  {
    IdsAppend(s.queue, task);
  }

  lemma ConsiderConserves(s: State)
    requires Conserved(s) && Enabled(s, Consider)
    ensures Conserved(Apply(s, Consider))
  {
    var c := s.cursor;
    var t := Apply(s, Consider);
    assert s.inFlight + Pending(s) == s.inFlight;
    if t.cursor.Sent? {
      var task := ResolveScheduledTask(s.defs[c.next], c.config);
      QueueingAdds(s, task);
      assert Instances(t) == Instances(s.(queue := s.queue + [task]));
      SetAdd(s.inFlight, task.id);
      assert Instances(t) + t.lost == (Instances(s) + s.lost) + multiset{task.id};
      assert Pending(t) == {task.id};
      assert task.id in DefIds(s.defs);
    } else {
      assert Pending(t) == {};
      assert t.inFlight + Pending(t) == s.inFlight;
      assert Instances(t) == Instances(s);
    }
  }

  lemma RecordConserves(s: State)
    requires Conserved(s) && Enabled(s, Record)
    ensures Conserved(Apply(s, Record))
  {
    var t := Apply(s, Record);
    assert t.inFlight + Pending(t) == s.inFlight + Pending(s);
  }

  lemma ReportTakes(s: State)
    requires Enabled(s, TakeReport)
    ensures var t := Apply(s, TakeReport);
            (Instances(t) + t.lost) + multiset{s.results[0].id} == Instances(s) + s.lost
  {
    assert Ids(s.results) == multiset{s.results[0].id} + Ids(s.results[1..]);
  }

  lemma ReportConserves(s: State)
    requires Conserved(s) && Enabled(s, TakeReport)
    ensures Conserved(Apply(s, TakeReport)) && s.results[0].id in s.inFlight
  {
    var id := s.results[0].id;
    var t := Apply(s, TakeReport);
    assert s.inFlight + Pending(s) == s.inFlight && t.inFlight + Pending(t) == s.inFlight - {id};
    ReportTakes(s);
    assert id in multiset(s.inFlight);
    SetRemove(s.inFlight, id);
    Cancel(Instances(t) + t.lost, multiset(s.inFlight - {id}), multiset{id});
  }

  predicate IsWorkerAction(a: Action) {
    a.Receive? || a.Acquire? || a.Count? || a.Uncount? || a.SendResult? || a.Release? || a.Notice?
  }

  /** Acquiring, counting, uncounting and releasing leave the task with the worker. */
  lemma KeepingTask(s: State, a: Action)
    requires Enabled(s, a) && (a.Acquire? || a.Count? || a.Uncount? || a.Release?)
    ensures Instances(Apply(s, a)) + Apply(s, a).lost == Instances(s) + s.lost
  {
    var t := Apply(s, a);
    assert t.workers == s.workers[a.w := t.workers[a.w]];
    MoveIds(s.workers, a.w, t.workers[a.w]);
    Cancel(WorkerIds(t.workers), WorkerIds(s.workers), PhaseIds(s.workers[a.w]));
  }

  lemma Receiving(s: State, w: nat)
    requires Enabled(s, Receive(w))
    ensures Instances(Apply(s, Receive(w))) == Instances(s)
  {
    var t := Apply(s, Receive(w));
    MoveIds(s.workers, w, t.workers[w]);
    assert WorkerIds(t.workers) == WorkerIds(s.workers) + multiset{s.queue[0].id};
    assert Ids(s.queue) == multiset{s.queue[0].id} + Ids(t.queue);
  }

  lemma Sending(s: State, w: nat)
    requires Enabled(s, SendResult(w))
    ensures Instances(Apply(s, SendResult(w))) == Instances(s)
  {
    var t := Apply(s, SendResult(w));
    MoveIds(s.workers, w, t.workers[w]);
    IdsAppend(s.results, s.workers[w].task);
    assert WorkerIds(t.workers) + multiset{s.workers[w].task.id} == WorkerIds(s.workers);
  }

  lemma Dropping(s: State, w: nat)
    requires Enabled(s, Notice(w))
    ensures Instances(Apply(s, Notice(w))) + Apply(s, Notice(w)).lost == Instances(s) + s.lost
  {
    if s.workers[w].Waiting? {
      var t := Apply(s, Notice(w));
      MoveIds(s.workers, w, t.workers[w]);
      assert WorkerIds(t.workers) + multiset{s.workers[w].task.id} == WorkerIds(s.workers);
    }
  }

  lemma InstancesKept(s: State, a: Action)
    requires Enabled(s, a) && IsWorkerAction(a)
    ensures Instances(Apply(s, a)) + Apply(s, a).lost == Instances(s) + s.lost
  {
    match a
    case Receive(w) => Receiving(s, w);
    case SendResult(w) => Sending(s, w);
    case Notice(w) => Dropping(s, w);
    case _ => KeepingTask(s, a);
  }

  lemma DispatcherKept(s: State, a: Action)
    requires Enabled(s, a) && IsWorkerAction(a)
    ensures var t := Apply(s, a);
            t.inFlight == s.inFlight && t.cursor == s.cursor && t.defs == s.defs && t.now == s.now && s.lost <= t.lost
  {
  }

  lemma WorkerConserves(s: State, a: Action)
    requires Conserved(s) && Enabled(s, a) && IsWorkerAction(a)
    ensures Conserved(Apply(s, a))
    ensures Apply(s, a).inFlight == s.inFlight && s.lost <= Apply(s, a).lost
  {
    InstancesKept(s, a);
    DispatcherKept(s, a);
  }

  lemma StepConserves(s: State, a: Action)
    requires Conserved(s) && Enabled(s, a)
    ensures Conserved(Apply(s, a))
  {
    match a
    case Advance(_) | Tick(_) | EndTick => assert Pending(Apply(s, a)) == Pending(s);
    case Consider => ConsiderConserves(s);
    case Record => RecordConserves(s);
    case TakeReport => ReportConserves(s);
    case Receive(_) | Acquire(_) | Count(_) | Uncount(_) | SendResult(_) | Release(_) | Notice(_) =>
      WorkerConserves(s, a);
  }

  lemma {:induction false} RunConserves(s: State, run: seq<Action>)
    requires Conserved(s) && ValidRun(s, run)
    ensures Conserved(Execute(s, run))
    decreases |run|
  {
    if run != [] {
      StepConserves(s, run[0]);
      RunConserves(Apply(s, run[0]), run[1..]);
    }
  }

  /** Single flight: over every interleaving, an id has at most one instance
      across queue, workers and results, and an id with an instance is in
      `in_flight` or about to be entered there. */
  lemma AtMostOneInstance(defs: seq<TaskDefinition>, config: RuntimeConfig, now: int, run: seq<Action>, id: string)
    requires ValidRun(Start(defs, config, now), run)
    ensures var s := Execute(Start(defs, config, now), run);
            && Instances(s)[id] <= 1
            && (id in Instances(s) ==> id in s.inFlight + Pending(s))
            && (id in s.inFlight + Pending(s) <==> Instances(s)[id] + s.lost[id] == 1)
  {
    StartConserved(defs, config, now);
    RunConserves(Start(defs, config, now), run);
    var s := Execute(Start(defs, config, now), run);
    assert (Instances(s) + s.lost)[id] == multiset(s.inFlight + Pending(s))[id];
  }

  /** The ids that are live are exactly those in flight or pending. */
  ghost predicate Exact(s: State) {
    forall id :: id in s.inFlight + Pending(s) <==> id in Instances(s)
  }

  lemma ExactIffNothingLost(s: State)
    requires Conserved(s)
    ensures Exact(s) <==> s.lost == multiset{}
  {
    if s.lost != multiset{} {
      var id :| id in s.lost;
      assert (Instances(s) + s.lost)[id] == multiset(s.inFlight + Pending(s))[id] <= 1;
    } else {
      assert Instances(s) + s.lost == Instances(s);
    }
  }

  /** The run holds a notice at a worker that has a task and waits for a permit. */
  predicate DropsTask(s: State, run: seq<Action>)
    requires ValidRun(s, run)
    decreases |run|
  {
    run != [] &&
    ((run[0].Notice? && s.workers[run[0].w].Waiting?) || DropsTask(Apply(s, run[0]), run[1..]))
  }

  lemma StepLoses(s: State, a: Action)
    requires Enabled(s, a)
    ensures |Apply(s, a).lost| == |s.lost| + if a.Notice? && s.workers[a.w].Waiting? then 1 else 0
  {
  }

  lemma {:induction false} LostByDrops(s: State, run: seq<Action>)
    requires ValidRun(s, run)
    ensures |Execute(s, run).lost| >= |s.lost|
    ensures |Execute(s, run).lost| == |s.lost| <==> !DropsTask(s, run)
    decreases |run|
  {
    if run != [] {
      StepLoses(s, run[0]);
      LostByDrops(Apply(s, run[0]), run[1..]);
    }
  }

  /** `in_flight`, with the id just sent, is exactly the live instances if and
      only if no worker was interrupted between its task and its permit. */
  lemma InFlightExact(defs: seq<TaskDefinition>, config: RuntimeConfig, now: int, run: seq<Action>)
    requires ValidRun(Start(defs, config, now), run)
    ensures Exact(Execute(Start(defs, config, now), run)) <==> !DropsTask(Start(defs, config, now), run)
  {
    StartConserved(defs, config, now);
    RunConserves(Start(defs, config, now), run);
    LostByDrops(Start(defs, config, now), run);
    ExactIffNothingLost(Execute(Start(defs, config, now), run));
  }

  lemma {:induction false} NoNoticeNoDrop(s: State, run: seq<Action>)
    requires ValidRun(s, run) && forall i :: 0 <= i < |run| ==> !run[i].Notice?
    ensures !DropsTask(s, run)
    decreases |run|
  {
    if run != [] {
      NoNoticeNoDrop(Apply(s, run[0]), run[1..]);
    }
  }

  /** Before shutdown is signalled, over every interleaving, the instances are
      exactly `in_flight` with the id just sent, each once. */
  lemma NothingLostWithoutNotice(defs: seq<TaskDefinition>, config: RuntimeConfig, now: int, run: seq<Action>)
    requires ValidRun(Start(defs, config, now), run) && forall i :: 0 <= i < |run| ==> !run[i].Notice?
    ensures var s := Execute(Start(defs, config, now), run);
            Instances(s) == multiset(s.inFlight + Pending(s)) && s.lost == multiset{}
  {
    StartConserved(defs, config, now);
    RunConserves(Start(defs, config, now), run);
    NoNoticeNoDrop(Start(defs, config, now), run);
    LostByDrops(Start(defs, config, now), run);
    var s := Execute(Start(defs, config, now), run);
    assert s.lost == multiset{};
    assert Instances(s) + s.lost == Instances(s);
  }

  lemma OneInstance(s: State, id: string)
    requires Conserved(s)
    ensures Instances(s)[id] + s.lost[id] <= 1
  {
    assert (Instances(s) + s.lost)[id] == multiset(s.inFlight + Pending(s))[id];
  }

  lemma StepKeepsLost(s: State, a: Action, id: string)
    requires Conserved(s) && Enabled(s, a) && id in s.lost && id in s.inFlight
    ensures id in Apply(s, a).inFlight && id in Apply(s, a).lost
  {
    if IsWorkerAction(a) {
      WorkerConserves(s, a);
    } else if a.TakeReport? && s.results[0].id == id {
      OneInstance(s, id);
    }
  }

  /** A dropped task is never dispatched again: its id stays in `in_flight`. */
  lemma {:induction false} LostForever(s: State, run: seq<Action>, id: string)
    requires Conserved(s) && ValidRun(s, run) && id in s.lost && id in s.inFlight
    ensures id in Execute(s, run).inFlight && id in Execute(s, run).lost
    decreases |run|
  {
    if run != [] {
      StepConserves(s, run[0]);
      StepKeepsLost(s, run[0], id);
      LostForever(Apply(s, run[0]), run[1..], id);
    }
  }

  lemma AllLost(s: State, id: string)
    requires Conserved(s) && s.cursor.Selecting? && s.inFlight == {id} && s.lost == multiset{id}
    ensures Instances(s) == multiset{}
  {
    assert s.inFlight + Pending(s) == {id};
    Cancel(Instances(s), multiset{}, multiset{id});
  }

  /** Such a drop can happen in a run: one task, queued, received, and then a
      notice before the permit. */
  lemma DroppingRun(d: TaskDefinition, config: RuntimeConfig, now: int) returns (run: seq<Action>)
    requires config.enabled
    ensures ValidRun(Start([d], config, now), run)
    ensures var s := Execute(Start([d], config, now), run);
            s.lost == multiset{d.id} && s.inFlight == {d.id} && Instances(s) == multiset{}
  {
    run := ReceivedRun(d, config, now);
    run := Extend(Start([d], config, now), run, Notice(0));
    StartConserved([d], config, now);
    RunConserves(Start([d], config, now), run);
    AllLost(Execute(Start([d], config, now), run), d.id);
  }

  lemma {:induction false} DefIdsBound(defs: seq<TaskDefinition>)
    ensures |DefIds(defs)| <= |defs|
  {
    if defs == [] {
      assert DefIds(defs) == {};
    } else {
      var n := |defs| - 1;
      assert DefIds(defs) == DefIds(defs[..n]) + {defs[n].id} by {
        forall x | x in DefIds(defs) ensures x in DefIds(defs[..n]) + {defs[n].id} {
          var i :| 0 <= i < |defs| && defs[i].id == x;
          assert i < n ==> defs[..n][i].id == x;
        }
        forall x | x in DefIds(defs[..n]) + {defs[n].id} ensures x in DefIds(defs) {
          if x in DefIds(defs[..n]) {
            var i :| 0 <= i < n && defs[..n][i].id == x;
            assert defs[i].id == x;
          }
        }
      }
      DefIdsBound(defs[..n]);
    }
  }

  lemma {:induction false} SubsetSize(a: set<string>, b: set<string>)
    requires a <= b
    ensures |a| <= |b|
  {
    assert b == a + (b - a);
  }

  /** The queue never holds more than the tasks there are, so `try_send` never
      finds it full. */
  lemma QueueNeverFull(s: State)
    requires Conserved(s)
    ensures |s.queue| <= |s.defs| && |s.queue| < Capacity(s)
  {
    IdsSize(s.queue);
    assert Ids(s.queue) <= Instances(s) + s.lost;
    assert |Instances(s) + s.lost| == |Ids(s.queue)| + |WorkerIds(s.workers)| + |Ids(s.results)| + |s.lost|;
    assert |multiset(s.inFlight + Pending(s))| == |s.inFlight + Pending(s)|;
    SubsetSize(s.inFlight + Pending(s), DefIds(s.defs));
    DefIdsBound(s.defs);
  }

  // ---- Progress --------------------------------------------------------------------

  /** Definition `i` is enabled and due at this tick. */
  predicate DueNow(s: State, i: nat)
    requires !s.cursor.Selecting? && i < |s.defs|
  {
    s.cursor.config.enabled && DueAt(s, s.defs[i].id, s.cursor.at) <= s.cursor.at
  }

  /** Every due definition the tick has passed is in flight. */
  ghost predicate MissesNone(s: State) {
    !s.cursor.Selecting? ==>
      s.cursor.next <= |s.defs| && forall i :: 0 <= i < s.cursor.next && DueNow(s, i) ==> s.defs[i].id in s.inFlight
  }

  lemma ConsiderMissesNone(s: State)
    requires Conserved(s) && MissesNone(s) && Enabled(s, Consider)
    ensures MissesNone(Apply(s, Consider))
  {
    QueueNeverFull(s);
  }

  lemma StepMissesNone(s: State, a: Action)
    requires Conserved(s) && MissesNone(s) && Enabled(s, a)
    ensures MissesNone(Apply(s, a))
  {
    if a.Consider? {
      ConsiderMissesNone(s);
    } else if IsWorkerAction(a) {
      DispatcherKept(s, a);
      assert Apply(s, a).nextDue == s.nextDue;
    }
  }

  lemma {:induction false} RunMissesNone(s: State, run: seq<Action>)
    requires Conserved(s) && MissesNone(s) && ValidRun(s, run)
    ensures MissesNone(Execute(s, run))
    decreases |run|
  {
    if run != [] {
      StepConserves(s, run[0]);
      StepMissesNone(s, run[0]);
      RunMissesNone(Apply(s, run[0]), run[1..]);
    }
  }

  /** When a tick ends, every enabled task that was due at it is in flight, over
      every interleaving: no due task is missed. */
  lemma DueTasksDispatched(defs: seq<TaskDefinition>, config: RuntimeConfig, now: int, run: seq<Action>, i: nat)
    requires ValidRun(Start(defs, config, now), run) && Enabled(Execute(Start(defs, config, now), run), EndTick)
    requires var s := Execute(Start(defs, config, now), run); i < |s.defs| && DueNow(s, i)
    ensures var s := Execute(Start(defs, config, now), run);
            s.defs[i].id in s.inFlight
  {
    StartConserved(defs, config, now);
    RunMissesNone(Start(defs, config, now), run);
  }

  // ---- Spacing --------------------------------------------------------------------

  /** The dispatch at `j` respects the interval of the report at `i`. */
  ghost predicate Respects(log: seq<Event>, i: nat, j: nat)
    requires i < |log| && j < |log|
  {
    log[i].Reported? && log[j].Dispatched? && log[i].id == log[j].id ==> log[j].at >= log[i].at + log[i].intervalMs
  }

  ghost predicate Spaced(log: seq<Event>) {
    forall i, j :: 0 <= i < j < |log| ==> Respects(log, i, j)
  }

  /** The due time of an id covers every report of it, and an id that is in
      flight or pending is past them. */
  ghost predicate Covered(s: State, i: nat)
    requires i < |s.log|
  {
    s.log[i].Reported? ==>
      && s.log[i].id in s.nextDue
      && s.nextDue[s.log[i].id] >= s.log[i].at + s.log[i].intervalMs
      && (s.log[i].id in s.inFlight ==> s.now >= s.log[i].at + s.log[i].intervalMs)
      && (s.log[i].id in Pending(s) ==> s.cursor.at >= s.log[i].at + s.log[i].intervalMs)
  }

  ghost predicate Timely(s: State) {
    && Spaced(s.log)
    && forall i :: 0 <= i < |s.log| ==> Covered(s, i)
  }

  lemma DispatchTimely(s: State)
    requires Conserved(s) && Timely(s) && Enabled(s, Record)
    ensures Timely(Apply(s, Record))
  {
    var t := Apply(s, Record);
    var n := |s.log|;
    forall i, j | 0 <= i < j < |t.log| ensures Respects(t.log, i, j) {
      assert Covered(s, i);
      if j < n {
        assert Respects(s.log, i, j);
      }
    }
    forall i | 0 <= i < |t.log| ensures Covered(t, i) {
      if i < n {
        assert Covered(s, i);
      }
    }
  }

  lemma ReportTimely(s: State)
    requires Conserved(s) && Timely(s) && Enabled(s, TakeReport)
    ensures Timely(Apply(s, TakeReport))
  {
    var t := Apply(s, TakeReport);
    var n := |s.log|;
    ReportConserves(s);
    forall i, j | 0 <= i < j < |t.log| ensures Respects(t.log, i, j) {
      if j < n {
        assert Respects(s.log, i, j);
      }
    }
    forall i | 0 <= i < |t.log| ensures Covered(t, i) {
      if i < n {
        assert Covered(s, i);
      }
    }
  }

  lemma StepTimely(s: State, a: Action)
    requires Conserved(s) && Timely(s) && Enabled(s, a)
    ensures Timely(Apply(s, a))
  {
    if a.Record? {
      DispatchTimely(s);
    } else if a.TakeReport? {
      ReportTimely(s);
    } else {
      var t := Apply(s, a);
      assert t.log == s.log;
      forall i | 0 <= i < |t.log| ensures Covered(t, i) {
        assert Covered(s, i);
      }
    }
  }

  lemma {:induction false} RunTimely(s: State, run: seq<Action>)
    requires Conserved(s) && Timely(s) && ValidRun(s, run)
    ensures Timely(Execute(s, run))
    decreases |run|
  {
    if run != [] {
      StepConserves(s, run[0]);
      StepTimely(s, run[0]);
      RunTimely(Apply(s, run[0]), run[1..]);
    }
  }

  /** No task is dispatched earlier than its scheduled interval after any
      earlier report of it. */
  lemma DispatchesSpaced(defs: seq<TaskDefinition>, config: RuntimeConfig, now: int, run: seq<Action>)
    requires ValidRun(Start(defs, config, now), run)
    ensures Spaced(Execute(Start(defs, config, now), run).log)
  {
    StartConserved(defs, config, now);
    RunTimely(Start(defs, config, now), run);
  }
}
