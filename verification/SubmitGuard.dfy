/** The in-memory rate limit of public submissions
    (crates/backend/src/public_submit_guard.rs).  Calls hold the table's write
    lock, so they happen one after another. */
module SubmitGuard {
  import opened Basics

  type Table = map<string, int>   // last accepted submission, in milliseconds

  function WindowMs(rateLimitSeconds: nat): nat {
    Max(rateLimitSeconds, 1) * 1000
  }

  datatype Verdict = Accepted | Limited(retrySeconds: int)

  datatype Call = Call(key: string, now: int)

  function Decide(t: Table, c: Call, window: nat): Verdict {
    if c.key in t && c.now - t[c.key] < window
    then Limited(Max((window - (c.now - t[c.key]) + 999) / 1000, 1))
    else Accepted
  }

  /** `retain(|_, value| *value >= now - 6 windows)`. */
  function Pruned(t: Table, now: int, window: nat): Table {
    map k | k in t && t[k] >= now - window * 6 :: t[k]
  }

  function Next(t: Table, c: Call, window: nat): Table {
    if Decide(t, c, window).Accepted? then Pruned(t[c.key := c.now], c.now, window) else t
  }

  /** The shared table behind its lock. */
  class PublicSubmitGuard {
    var table: Table

    constructor ()
      ensures table == map[]
    {
      table := map[];
    }

    /** `enforce_public_submit_rate_limit`. */
    method Enforce(key: string, now: int, rateLimitSeconds: nat) returns (verdict: Verdict)
      modifies this
      ensures var w := WindowMs(rateLimitSeconds);
              && verdict == Decide(old(table), Call(key, now), w)
              && table == Next(old(table), Call(key, now), w)
    {
      var windowMs := WindowMs(rateLimitSeconds);
      if key in table {
        var elapsed := now - table[key];
        if elapsed < windowMs {
          var remaining := ((windowMs - elapsed) + 999) / 1000;
          return Limited(Max(remaining, 1));
        }
      }
      table := table[key := now];
      var staleBefore := now - windowMs * 6;
      table := map k | k in table && table[k] >= staleBefore :: table[k];
      verdict := Accepted;
    }
  }

  // ---- The guard without pruning ------------------------------------------------------

  function NextUnpruned(t: Table, c: Call, window: nat): Table {
    if Decide(t, c, window).Accepted? then t[c.key := c.now] else t
  }

  function After(calls: seq<Call>, window: nat): Table {
    if calls == [] then map[] else Next(After(calls[..|calls| - 1], window), calls[|calls| - 1], window)
  }

  function AfterUnpruned(calls: seq<Call>, window: nat): Table {
    if calls == [] then map[] else NextUnpruned(AfterUnpruned(calls[..|calls| - 1], window), calls[|calls| - 1], window)
  }

  /** The verdict on call `n`, with pruning and without. */
  function VerdictAt(calls: seq<Call>, n: nat, window: nat): Verdict
    requires n < |calls|
  {
    Decide(After(calls[..n], window), calls[n], window)
  }

  function UnprunedVerdictAt(calls: seq<Call>, n: nat, window: nat): Verdict
    requires n < |calls|
  {
    Decide(AfterUnpruned(calls[..n], window), calls[n], window)
  }

  lemma PrefixVerdicts(calls: seq<Call>, n: nat, i: nat, window: nat)
    requires i < n <= |calls|
    ensures UnprunedVerdictAt(calls[..n], i, window) == UnprunedVerdictAt(calls, i, window)
  {
    assert calls[..n][..i] == calls[..i];
  }

  // ---- Exactly when pruning changes a decision --------------------------------------------

  /** Call `i` was accepted, and at that moment the last accepted submission of
      `k` was more than six windows back. */
  ghost predicate Prunes(calls: seq<Call>, i: nat, k: string, window: nat)
    requires i < |calls|
  {
    var t := AfterUnpruned(calls[..i + 1], window);
    UnprunedVerdictAt(calls, i, window).Accepted? && k in t && t[k] < calls[i].now - window * 6
  }

  /** No call of `k` is accepted from call `from` up to call `to`. */
  ghost predicate NoneAccepted(calls: seq<Call>, k: string, from: nat, to: nat, window: nat)
    requires to <= |calls|
  {
    forall n :: from <= n < to && UnprunedVerdictAt(calls, n, window).Accepted? ==> calls[n].key != k
  }

  /** The last accepted submission of `k` among the first `n` calls has been pruned since. */
  ghost predicate Forgotten(calls: seq<Call>, n: nat, k: string, window: nat)
    requires n <= |calls|
  {
    exists i: nat :: i < n && Prunes(calls, i, k, window) && NoneAccepted(calls, k, i + 1, n, window)
  }

  /** A call that comes within a window of its key's last accepted submission,
      after another call has pruned that submission. */
  ghost predicate Harmed(calls: seq<Call>, n: nat, window: nat)
    requires n < |calls|
  {
    UnprunedVerdictAt(calls, n, window).Limited? && Forgotten(calls, n, calls[n].key, window)
  }

  /** After `n` calls the pruned table is the full one without what was forgotten. */
  ghost predicate PrunedAt(calls: seq<Call>, n: nat, window: nat)
    requires n <= |calls|
  {
    var pruned, full := After(calls[..n], window), AfterUnpruned(calls[..n], window);
    && (forall k :: k in pruned <==> k in full && !Forgotten(calls, n, k, window))
    && (forall k :: k in pruned ==> pruned[k] == full[k])
  }

  lemma TablesStep(calls: seq<Call>, n: nat, window: nat)
    requires n < |calls|
    ensures After(calls[..n + 1], window) == Next(After(calls[..n], window), calls[n], window)
    ensures AfterUnpruned(calls[..n + 1], window) == NextUnpruned(AfterUnpruned(calls[..n], window), calls[n], window)
  {
    assert calls[..n + 1][..n] == calls[..n];
  }

  lemma ForgottenStep(calls: seq<Call>, n: nat, k: string, window: nat)
    requires n < |calls|
    ensures Forgotten(calls, n + 1, k, window) <==>
              if UnprunedVerdictAt(calls, n, window).Limited? then Forgotten(calls, n, k, window)
              else k != calls[n].key && (Forgotten(calls, n, k, window) || Prunes(calls, n, k, window))
  {
    TablesStep(calls, n, window);
    if Forgotten(calls, n + 1, k, window) {
      var i: nat :| i < n + 1 && Prunes(calls, i, k, window) && NoneAccepted(calls, k, i + 1, n + 1, window);
      if i < n {
        assert NoneAccepted(calls, k, i + 1, n, window);
      }
    }
    if i: nat :| i < n && Prunes(calls, i, k, window) && NoneAccepted(calls, k, i + 1, n, window) {
      if UnprunedVerdictAt(calls, n, window).Limited? || k != calls[n].key {
        assert NoneAccepted(calls, k, i + 1, n + 1, window);
      }
    }
    if Prunes(calls, n, k, window) {
      assert NoneAccepted(calls, k, n + 1, n + 1, window);
    }
  }

  /** The next decision differs exactly when the call is harmed. */
  lemma NextDecision(calls: seq<Call>, n: nat, window: nat)
    requires n < |calls| && PrunedAt(calls, n, window)
    ensures VerdictAt(calls, n, window) == UnprunedVerdictAt(calls, n, window) <==> !Harmed(calls, n, window)
  {
  }

  lemma PrunedStep(calls: seq<Call>, n: nat, window: nat)
    requires n < |calls| && PrunedAt(calls, n, window)
    requires VerdictAt(calls, n, window) == UnprunedVerdictAt(calls, n, window)
    ensures PrunedAt(calls, n + 1, window)
  {
    TablesStep(calls, n, window);
    var pruned, full := After(calls[..n + 1], window), AfterUnpruned(calls[..n + 1], window);
    forall k
      ensures k in pruned <==> k in full && !Forgotten(calls, n + 1, k, window)
      ensures k in pruned ==> pruned[k] == full[k]
    {
      ForgottenStep(calls, n, k, window);
    }
  }

  lemma {:induction false} PrunedWhileSame(calls: seq<Call>, n: nat, window: nat)
    requires n <= |calls|
    requires forall m :: 0 <= m < n ==>
               !Harmed(calls, m, window) || VerdictAt(calls, m, window) == UnprunedVerdictAt(calls, m, window)
    ensures PrunedAt(calls, n, window)
  {
    if n > 0 {
      PrunedWhileSame(calls, n - 1, window);
      NextDecision(calls, n - 1, window);
      PrunedStep(calls, n - 1, window);
    }
  }

  /** Pruning never changes a decision if and only if no call comes within a
      window of its key's last accepted submission after that was pruned. */
  lemma PruningExact(calls: seq<Call>, window: nat)
    ensures (forall n :: 0 <= n < |calls| ==> VerdictAt(calls, n, window) == UnprunedVerdictAt(calls, n, window))
            <==> (forall n :: 0 <= n < |calls| ==> !Harmed(calls, n, window))
  {
    if forall n :: 0 <= n < |calls| ==> VerdictAt(calls, n, window) == UnprunedVerdictAt(calls, n, window) {
      forall n | 0 <= n < |calls| ensures !Harmed(calls, n, window) {
        PrunedWhileSame(calls, n, window);
        NextDecision(calls, n, window);
      }
    }
    if forall n :: 0 <= n < |calls| ==> !Harmed(calls, n, window) {
      forall n | 0 <= n < |calls| ensures VerdictAt(calls, n, window) == UnprunedVerdictAt(calls, n, window) {
        PrunedWhileSame(calls, n, window);
        NextDecision(calls, n, window);
      }
    }
  }

  // ---- How far the clock may fall back -----------------------------------------------------

  /** The clock never falls more than five windows (and a millisecond) behind an
      earlier call that was accepted. */
  ghost predicate ClockHolds(calls: seq<Call>, window: nat) {
    forall i, j :: 0 <= i < j < |calls| && UnprunedVerdictAt(calls, i, window).Accepted?
      ==> calls[j].now >= calls[i].now - window * 5 - 1
  }

  lemma {:induction false} EntryStays(calls: seq<Call>, k: string, from: nat, to: nat, window: nat)
    requires from <= to <= |calls| && NoneAccepted(calls, k, from, to, window)
    requires k in AfterUnpruned(calls[..from], window)
    ensures k in AfterUnpruned(calls[..to], window)
    ensures AfterUnpruned(calls[..to], window)[k] == AfterUnpruned(calls[..from], window)[k]
  {
    if from < to {
      EntryStays(calls, k, from, to - 1, window);
      TablesStep(calls, to - 1, window);
      assert UnprunedVerdictAt(calls, to - 1, window).Accepted? ==> calls[to - 1].key != k;
    }
  }

  /** A harmed call has fallen more than five windows behind an accepted one. */
  lemma HarmedFellBehind(calls: seq<Call>, n: nat, window: nat)
    requires n < |calls| && Harmed(calls, n, window)
    ensures exists i :: 0 <= i < n && UnprunedVerdictAt(calls, i, window).Accepted?
                        && calls[n].now < calls[i].now - window * 5 - 1
  {
    var k := calls[n].key;
    var i: nat :| i < n && Prunes(calls, i, k, window) && NoneAccepted(calls, k, i + 1, n, window);
    EntryStays(calls, k, i + 1, n, window);
    assert UnprunedVerdictAt(calls, i, window).Accepted?;
  }

  lemma ClockUnharmed(calls: seq<Call>, window: nat)
    requires ClockHolds(calls, window)
    ensures forall n :: 0 <= n < |calls| ==> !Harmed(calls, n, window)
  {
    forall m | 0 <= m < |calls| ensures !Harmed(calls, m, window) {
      if Harmed(calls, m, window) {
        HarmedFellBehind(calls, m, window);
      }
    }
  }

  /** With such a clock pruning never changes a decision. */
  lemma PruningRefines(calls: seq<Call>, n: nat, window: nat)
    requires ClockHolds(calls, window) && n < |calls|
    ensures VerdictAt(calls, n, window) == UnprunedVerdictAt(calls, n, window)
  {
    ClockUnharmed(calls, window);
    PruningExact(calls, window);
  }

  function Late(window: nat): seq<Call> {
    [Call("a", 0), Call("b", 6 * window + 1), Call("a", window - 1)]
  }

  /** One millisecond less of clock discipline and it can, whatever the window:
      "a" is accepted again too early once "b" has pruned its entry. */
  lemma ClockBoundIsTight(window: nat)
    requires window >= 1
    ensures Late(window)[2].now == Late(window)[1].now - window * 5 - 2
    ensures VerdictAt(Late(window), 2, window).Accepted? && UnprunedVerdictAt(Late(window), 2, window).Limited?
  {
    var calls := Late(window);
    assert calls[..0] == [];
    TablesStep(calls, 0, window);
    TablesStep(calls, 1, window);
    assert AfterUnpruned(calls[..1], window) == map["a" := 0];
    assert "a" !in After(calls[..2], window);
  }

  // ---- What the guard promises ------------------------------------------------------------

  /** An unpruned entry is the last accepted call of its key. */
  ghost predicate LastAccepted(calls: seq<Call>, t: Table, window: nat) {
    forall i :: 0 <= i < |calls| && UnprunedVerdictAt(calls, i, window).Accepted?
      ==> calls[i].key in t && t[calls[i].key] >= calls[i].now
  }

  lemma {:induction false} TableHoldsLast(calls: seq<Call>, window: nat)
    requires window >= 1
    ensures LastAccepted(calls, AfterUnpruned(calls, window), window)
  {
    if calls != [] {
      var m := |calls| - 1;
      TableHoldsLast(calls[..m], window);
      forall i | 0 <= i < |calls| && UnprunedVerdictAt(calls, i, window).Accepted?
        ensures calls[i].key in AfterUnpruned(calls, window)
        ensures AfterUnpruned(calls, window)[calls[i].key] >= calls[i].now
      {
        if i < m {
          PrefixVerdicts(calls, m, i, window);
          assert calls[..m][i] == calls[i];
        }
      }
    }
  }

  /** An entry is the time of some accepted call of its key. */
  lemma {:induction false} EntryFrom(calls: seq<Call>, n: nat, k: string, window: nat) returns (p: nat)
    requires n <= |calls| && k in AfterUnpruned(calls[..n], window)
    ensures p < n && UnprunedVerdictAt(calls, p, window).Accepted? && calls[p].key == k
    ensures calls[p].now == AfterUnpruned(calls[..n], window)[k]
  {
    assert n > 0;
    TablesStep(calls, n - 1, window);
    if UnprunedVerdictAt(calls, n - 1, window).Accepted? && calls[n - 1].key == k {
      p := n - 1;
    } else {
      p := EntryFrom(calls, n - 1, k, window);
    }
  }

  /** Accepted calls `i` and `j` of one key are at least a window apart. */
  ghost predicate Apart(calls: seq<Call>, i: nat, j: nat, window: nat)
    requires i < |calls| && j < |calls|
  {
    (calls[i].key == calls[j].key && VerdictAt(calls, i, window).Accepted? && VerdictAt(calls, j, window).Accepted?)
      ==> calls[j].now >= calls[i].now + window
  }

  ghost predicate Spaced(calls: seq<Call>, window: nat) {
    forall i, j :: 0 <= i < j < |calls| ==> Apart(calls, i, j, window)
  }

  /** A harmed call is accepted too soon. */
  lemma HarmedTooSoon(calls: seq<Call>, n: nat, window: nat) returns (p: nat)
    requires n < |calls| && Harmed(calls, n, window)
    requires forall m :: 0 <= m < n ==> !Harmed(calls, m, window)
    ensures p < n && !Apart(calls, p, n, window)
  {
    PrunedWhileSame(calls, n, window);
    NextDecision(calls, n, window);
    p := EntryFrom(calls, n, calls[n].key, window);
    PrunedWhileSame(calls, p, window);
    NextDecision(calls, p, window);
  }

  lemma {:induction false} SpacedUnharmed(calls: seq<Call>, n: nat, window: nat)
    requires n <= |calls| && Spaced(calls, window)
    ensures forall m :: 0 <= m < n ==> !Harmed(calls, m, window)
  {
    if n > 0 {
      SpacedUnharmed(calls, n - 1, window);
      if Harmed(calls, n - 1, window) {
        var p := HarmedTooSoon(calls, n - 1, window);
      }
    }
  }

  lemma UnharmedApart(calls: seq<Call>, i: nat, j: nat, window: nat)
    requires window >= 1 && i < j < |calls| && forall n :: 0 <= n < |calls| ==> !Harmed(calls, n, window)
    ensures Apart(calls, i, j, window)
  {
    PruningExact(calls, window);
    TableHoldsLast(calls[..j], window);
    PrefixVerdicts(calls, j, i, window);
    assert calls[..j][i] == calls[i];
  }

  /** Accepted submissions of one key are all at least a window apart if and only
      if no call is harmed. */
  lemma SpacingExact(calls: seq<Call>, window: nat)
    requires window >= 1
    ensures Spaced(calls, window) <==> forall n :: 0 <= n < |calls| ==> !Harmed(calls, n, window)
  {
    if forall n :: 0 <= n < |calls| ==> !Harmed(calls, n, window) {
      forall i, j | 0 <= i < j < |calls| ensures Apart(calls, i, j, window) {
        UnharmedApart(calls, i, j, window);
      }
    }
    if Spaced(calls, window) {
      SpacedUnharmed(calls, |calls|, window);
    }
  }

  /** So they are under such a clock. */
  lemma AcceptedSpaced(calls: seq<Call>, window: nat)
    requires window >= 1 && ClockHolds(calls, window)
    ensures Spaced(calls, window)
  {
    ClockUnharmed(calls, window);
    SpacingExact(calls, window);
  }

  /** What the setting means, in seconds: an accepted key is refused until that
      many whole seconds, at least one, have passed, and accepted from then on. */
  lemma ReadmittedAfter(t: Table, key: string, rateLimitSeconds: nat, now: int)
    requires key in t
    ensures var seconds := if rateLimitSeconds == 0 then 1 else rateLimitSeconds;
            Decide(t, Call(key, now), WindowMs(rateLimitSeconds)).Accepted? <==> now >= t[key] + 1000 * seconds
  {
  }

  /** The reported delay is the least whole number of seconds after which a
      retry is accepted, if no other submission of the key comes in between. */
  lemma RetryDelayExact(t: Table, c: Call, window: nat, seconds: nat)
    requires Decide(t, c, window).Limited?
    ensures Decide(t, Call(c.key, c.now + seconds * 1000), window).Accepted?
            <==> seconds >= Decide(t, c, window).retrySeconds
  {
  }
}
