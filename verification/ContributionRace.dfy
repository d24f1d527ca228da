/** Approvals of one contribution request that run at the same time: a handler
    holds no lock between reading the record and storing it
    (crates/backend/src/gpt2api_rs.rs).  Store writes succeed, replies are well
    formed and the notifier is configured; requests are not rejected meanwhile. */
module ContributionRace {
  import opened Basics
  import opened Contribution

  /** Where one handler stands, with the record as it read it. */
  datatype Handler =
    | Idle
    | HasRead(read: Record)
    | HasKey(read: Record, key: string)

  datatype State = State(world: World, handlers: seq<Handler>)

  function Begin(handlers: nat): State {
    State(Submitted(), seq(handlers, _ => Idle))
  }

  datatype Action =
    | ReadRecord(h: nat)
    | GiveUp(h: nat)                                           // bad credential, import or key service failed
    | Obtain(h: nat, id: string)                               // the key of the record read, or a new one
    | Finish(h: nat, account: string, mailOk: bool)            // mail and store

  predicate Enabled(s: State, a: Action) {
    && a.h < |s.handlers|
    && match a
       case ReadRecord(h) => s.handlers[h].Idle?
       case GiveUp(h) => s.handlers[h].HasRead?
       case Obtain(h, id) => s.handlers[h].HasRead?
       case Finish(h, _, _) => s.handlers[h].HasKey?
  }

  function Move(s: State, h: nat, p: Handler): State
    requires h < |s.handlers|
  {
    s.(handlers := s.handlers[h := p])
  }

  /** What the handler stores at the end, from the record it read. */
  function Outcome(r: Record, key: string, account: string, mailOk: bool): Record {
    var r1 := r.(failureReason := None, importedAccount := Some(r.importedAccount.GetOr(account)), issuedKey := Some(key));
    if mailOk then r1.(status := Issued) else MarkedFailed(r1, MAIL_FAILED)
  }

  function Apply(s: State, a: Action): State
    requires Enabled(s, a)
  {
    var w := s.world;
    match a
    case ReadRecord(h) =>
      if w.record.status.Issued? || w.record.status.Rejected? then s else Move(s, h, HasRead(w.record))
    case GiveUp(h) => Move(s, h, Idle)
    case Obtain(h, id) =>
      var r := s.handlers[h].read;
      if r.issuedKey.Some? then Move(s, h, HasKey(r, r.issuedKey.value))
      else Move(s, h, HasKey(r, id)).(world := w.(created := w.created + [id], live := w.live + {id}))
    case Finish(h, account, mailOk) =>
      var p := s.handlers[h];
      Move(s, h, Idle).(world := w.(record := Outcome(p.read, p.key, account, mailOk),
                                    mails := w.mails + if mailOk then 1 else 0))
  }

  predicate ValidRun(s: State, run: seq<Action>)
    decreases |run|
  {
    run == [] || (Enabled(s, run[0]) && ValidRun(Apply(s, run[0]), run[1..]))
  }

  function Execute(s: State, run: seq<Action>): State
    requires ValidRun(s, run)
    decreases |run|
  {
    if run == [] then s else Execute(Apply(s, run[0]), run[1..])
  }

  // ---- One handler alone ---------------------------------------------------------------

  /** Undisturbed, the three steps are the approval of one call. */
  lemma AloneIsApproved(s: State, h: nat, id: string, account: string, mailOk: bool)
    requires h < |s.handlers| && s.handlers[h].Idle? && Balanced(s.world)
    requires !s.world.record.status.Issued? && !s.world.record.status.Rejected?
    requires s.world.record.issuedKey.Some? ==> s.world.record.issuedKey.value in s.world.live
    ensures var run := [ReadRecord(h), Obtain(h, id), Finish(h, account, mailOk)];
            && ValidRun(s, run)
            && Execute(s, run) ==
               s.(world := Approved(s.world, ApproveEnv(true, true, true, Some(account), Created(id), true, mailOk, true)))
  {
    var run := [ReadRecord(h), Obtain(h, id), Finish(h, account, mailOk)];
    assert run[1..] == [Obtain(h, id), Finish(h, account, mailOk)];
    assert run[1..][1..] == [Finish(h, account, mailOk)] && run[1..][1..][1..] == [];
    var s1 := Apply(s, run[0]);
    var s2 := Apply(s1, run[1]);
    var s3 := Apply(s2, run[2]);
    assert s3.handlers == s.handlers;
    assert ValidRun(s3, []) && Execute(s3, []) == s3;
    assert ValidRun(s2, run[1..][1..]) && Execute(s2, run[1..][1..]) == s3;
    assert ValidRun(s1, run[1..]) && Execute(s1, run[1..]) == s3;
  }

  // ---- Exactly when two keys are created ------------------------------------------------

  ghost predicate SomeoneHasKey(s: State) {
    exists h :: 0 <= h < |s.handlers| && s.handlers[h].HasKey?
  }

  /** A key was created exactly if the record names one or a handler has one that
      it has not stored yet; and what a handler read is not ahead of the record. */
  ghost predicate Traced(s: State) {
    && (s.world.created != [] <==> s.world.record.issuedKey.Some? || SomeoneHasKey(s))
    && forall h :: 0 <= h < |s.handlers| && !s.handlers[h].Idle? && s.handlers[h].read.issuedKey.Some?
         ==> s.world.record.issuedKey.Some?
  }

  /** The handler read no key and creates one, although another is already stored
      or on its way to be. */
  ghost predicate Stale(s: State, a: Action)
    requires Enabled(s, a)
  {
    a.Obtain? && s.handlers[a.h].read.issuedKey.None? && (s.world.record.issuedKey.Some? || SomeoneHasKey(s))
  }

  ghost predicate NoneStale(s: State, run: seq<Action>)
    requires ValidRun(s, run)
    decreases |run|
  {
    run == [] || (!Stale(s, run[0]) && NoneStale(Apply(s, run[0]), run[1..]))
  }

  lemma KeptByOthers(s: State, h: nat, p: Handler)
    requires h < |s.handlers| && !s.handlers[h].HasKey?
    ensures SomeoneHasKey(Move(s, h, p)) <==> SomeoneHasKey(s) || p.HasKey?
  {
    var t := Move(s, h, p);
    if g :| 0 <= g < |s.handlers| && s.handlers[g].HasKey? {
      assert t.handlers[g].HasKey?;
    }
    if p.HasKey? {
      assert t.handlers[h].HasKey?;
    }
  }

  lemma ObtainTraced(s: State, h: nat, id: string)
    requires Traced(s) && Enabled(s, Obtain(h, id))
    ensures Traced(Apply(s, Obtain(h, id)))
  {
    var t := Apply(s, Obtain(h, id));
    assert t.handlers[h].HasKey?;
  }

  lemma StepTraced(s: State, a: Action)
    requires Traced(s) && Enabled(s, a)
    ensures Traced(Apply(s, a))
  {
    match a
    case ReadRecord(h) => KeptByOthers(s, h, HasRead(s.world.record));
    case GiveUp(h) => KeptByOthers(s, h, Idle);
    case Obtain(h, id) => ObtainTraced(s, h, id);
    case Finish(h, _, _) => assert SomeoneHasKey(s);
  }

  /** A step creates one key or none. */
  lemma CreatedBy(s: State, a: Action)
    requires Enabled(s, a)
    ensures |Apply(s, a).world.created| ==
            |s.world.created| + if a.Obtain? && s.handlers[a.h].read.issuedKey.None? then 1 else 0
  {
  }

  lemma {:induction false} KeysGrow(s: State, run: seq<Action>)
    requires ValidRun(s, run)
    ensures |s.world.created| <= |Execute(s, run).world.created|
    decreases |run|
  {
    if run != [] {
      CreatedBy(s, run[0]);
      KeysGrow(Apply(s, run[0]), run[1..]);
    }
  }

  lemma {:induction false} KeysExactly(s: State, run: seq<Action>)
    requires Traced(s) && |s.world.created| <= 1 && ValidRun(s, run)
    ensures |Execute(s, run).world.created| <= 1 <==> NoneStale(s, run)
    decreases |run|
  {
    if run != [] {
      var t := Apply(s, run[0]);
      StepTraced(s, run[0]);
      CreatedBy(s, run[0]);
      if |t.world.created| <= 1 {
        KeysExactly(t, run[1..]);
      } else {
        KeysGrow(t, run[1..]);
      }
    }
  }

  /** Over every interleaving of any number of approvals, at most one key is
      created if and only if no handler that read the record before it named a
      key creates one after another handler has. */
  lemma OneKeyExactly(handlers: nat, run: seq<Action>)
    requires ValidRun(Begin(handlers), run)
    ensures |Execute(Begin(handlers), run).world.created| <= 1 <==> NoneStale(Begin(handlers), run)
  {
    assert !SomeoneHasKey(Begin(handlers));
    KeysExactly(Begin(handlers), run);
  }

  // ---- Two approvals at once ------------------------------------------------------------

  lemma {:induction false} Onward(s: State, run: seq<Action>, a: Action) returns (longer: seq<Action>)
    requires ValidRun(s, run) && Enabled(Execute(s, run), a)
    ensures longer == run + [a] && ValidRun(s, longer) && Execute(s, longer) == Apply(Execute(s, run), a)
    decreases |run|
  {
    longer := run + [a];
    if run == [] {
      assert longer == [a] && longer[1..] == [];
    } else {
      assert longer[1..] == run[1..] + [a];
      var _ := Onward(Apply(s, run[0]), run[1..], a);
    }
  }

  /** Both read the open record: two keys, two mails, and the record forgets one key. */
  lemma TwoAtOnce(a: string, b: string, account: string) returns (run: seq<Action>)
    ensures ValidRun(Begin(2), run)
    ensures var w := Execute(Begin(2), run).world;
            w.created == [a, b] && w.mails == 2 && w.record.status.Issued? && w.record.issuedKey == Some(b)
  {
    run := Onward(Begin(2), [], ReadRecord(0));
    run := Onward(Begin(2), run, ReadRecord(1));
    run := Onward(Begin(2), run, Obtain(0, a));
    run := Onward(Begin(2), run, Obtain(1, b));
    run := Onward(Begin(2), run, Finish(0, account, true));
    run := Onward(Begin(2), run, Finish(1, account, true));
  }
}
