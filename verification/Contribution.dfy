/** Approving and rejecting one account contribution request
    (crates/backend/src/gpt2api_rs.rs).  The record store, the key service and
    the mailer are outside: each call takes their outcomes as arguments. */
module Contribution {
  import opened Basics

  datatype Status = Pending | Failed | Issued | Rejected

  /** The fields of the stored record that decide what happens. */
  datatype Record = Record(
    status: Status, importedAccount: Option<string>, issuedKey: Option<string>, failureReason: Option<string>)

  /** What the key service answers to a creation request. */
  datatype CreateReply =
    | Created(id: string)     // a usable reply
    | Garbled(id: string)     // the key exists, the reply lacks a field
    | Refused                 // nothing was created

  /** Outcomes of the outside calls one approval may make. */
  datatype ApproveEnv = ApproveEnv(
    readOk: bool, notifier: bool, tokenOk: bool, imported: Option<string>,
    create: CreateReply, loadOk: bool, mailOk: bool, storeOk: bool)

  datatype RejectEnv = RejectEnv(readOk: bool, tokenOk: bool, deleteKeyOk: bool, deleteAccountOk: bool, storeOk: bool)

  /** The stored record next to what the outside world has seen: keys created so
      far, keys that still exist, successful mails to the requester. */
  datatype World = World(record: Record, created: seq<string>, live: set<string>, mails: nat)

  function Submitted(): World {
    World(Record(Pending, None, None, None), [], {}, 0)
  }

  // ---- Specification -----------------------------------------------------------------

  function Stored(w: World, r: Record, ok: bool): World {
    if ok then w.(record := r) else w
  }

  function MarkedFailed(r: Record, reason: string): Record {
    r.(status := Failed, failureReason := Some(reason))
  }

  /** The key an approval goes on with, and the world after asking for it. */
  function KeyFor(w: World, e: ApproveEnv): (World, Option<string>) {
    match w.record.issuedKey
    case Some(id) => (w, if e.loadOk && id in w.live then Some(id) else None)
    case None =>
      match e.create
      case Created(id) => (w.(created := w.created + [id], live := w.live + {id}), Some(id))
      case Garbled(id) => (w.(created := w.created + [id], live := w.live + {id}), None)
      case Refused => (w, None)
  }

  const NO_NOTIFIER := "email notifier is not configured"
  const MAIL_FAILED := "mail failed"

  function Approved(w: World, e: ApproveEnv): World {
    var r := w.record;
    if !e.readOk || r.status.Issued? || r.status.Rejected? then w
    else if !e.notifier then Stored(w, MarkedFailed(r, NO_NOTIFIER), e.storeOk)
    else if !e.tokenOk then w
    else
      var account := if r.importedAccount.Some? then r.importedAccount else e.imported;
      if account.None? then w
      else
        var (w1, key) := KeyFor(w, e);
        if key.None? then w1
        else
          var r1 := r.(failureReason := None, importedAccount := account, issuedKey := key);
          if e.mailOk
          then Stored(w1.(mails := w1.mails + 1), r1.(status := Issued), e.storeOk)
          else Stored(w1, MarkedFailed(r1, MAIL_FAILED), e.storeOk)
  }

  function TurnedDown(w: World, e: RejectEnv): World {
    var r := w.record;
    if !e.readOk || r.status.Issued? || r.status.Rejected? then w
    else if r.issuedKey.Some? && !e.deleteKeyOk then w
    else
      var w1 := if r.issuedKey.Some? then w.(live := w.live - {r.issuedKey.value}) else w;
      if r.importedAccount.Some? && e.tokenOk && !e.deleteAccountOk then w1
      else Stored(w1, r.(status := Rejected, failureReason := None), e.storeOk)
  }

  // ---- The handlers -------------------------------------------------------------------

  /** The request's row in the store, and the outside world. */
  class Desk {
    var record: Record
    var created: seq<string>
    var live: set<string>
    var mails: nat

    ghost function State(): World
      reads this
    {
      World(record, created, live, mails)
    }

    constructor ()
      ensures State() == Submitted()
    {
      record, created, live, mails := Record(Pending, None, None, None), [], {}, 0;
    }

    method Upsert(r: Record, ok: bool) returns (stored: bool)
      modifies this`record
      ensures stored == ok && State() == Stored(old(State()), r, ok)
    {
      if ok {
        record := r;
      }
      stored := ok;
    }

    method MarkFailed(r: Record, reason: string, ok: bool) returns (stored: bool)
      modifies this`record
      ensures stored == ok && State() == Stored(old(State()), MarkedFailed(r, reason), ok)
    {
      var failed := r.(status := Failed);
      failed := failed.(failureReason := Some(reason));
      stored := Upsert(failed, ok);
    }

    /** `create_bound_gpt2api_contribution_key` or `load_gpt2api_key_secret`. */
    method ObtainKey(e: ApproveEnv) returns (key: Option<string>)
      modifies this`created, this`live
      ensures (State(), key) == KeyFor(old(State()), e)
    {
      if record.issuedKey.Some? {
        var id := record.issuedKey.value;
        return if e.loadOk && id in live then Some(id) else None;
      }
      match e.create {
        case Created(id) =>
          created, live := created + [id], live + {id};
          key := Some(id);
        case Garbled(id) =>
          created, live := created + [id], live + {id};
          key := None;
        case Refused =>
          key := None;
      }
    }

    /** `approve_and_issue_account_contribution_request`. */
    method Approve(e: ApproveEnv) returns (ok: bool)
      modifies this
      ensures State() == Approved(old(State()), e)
      ensures ok ==> record.status.Issued? && mails == old(mails) + 1
    {
      if !e.readOk {
        return false;
      }
      var request := record;
      if request.status.Issued? || request.status.Rejected? {
        return false;
      }
      if !e.notifier {
        var _ := MarkFailed(request, NO_NOTIFIER, e.storeOk);
        return false;
      }
      if !e.tokenOk {
        return false;
      }
      if request.importedAccount.None? {
        if e.imported.None? {
          return false;
        }
        request := request.(importedAccount := e.imported);
      }
      var key := ObtainKey(e);
      if key.None? {
        return false;
      }
      request := request.(failureReason := None);
      request := request.(issuedKey := key);
      if !e.mailOk {
        var _ := MarkFailed(request, MAIL_FAILED, e.storeOk);
        return false;
      }
      mails := mails + 1;
      var issued := request.(status := Issued);
      ok := Upsert(issued, e.storeOk);
    }

    /** `reject_account_contribution_request`. */
    method Reject(e: RejectEnv) returns (ok: bool)
      modifies this
      ensures State() == TurnedDown(old(State()), e)
      ensures ok ==> record.status.Rejected?
    {
      if !e.readOk {
        return false;
      }
      var request := record;
      if request.status.Issued? || request.status.Rejected? {
        return false;
      }
      if request.issuedKey.Some? {
        if !e.deleteKeyOk {
          return false;
        }
        live := live - {request.issuedKey.value};
      }
      if request.importedAccount.Some? && e.tokenOk && !e.deleteAccountOk {
        return false;
      }
      request := request.(status := Rejected);
      request := request.(failureReason := None);
      ok := Upsert(request, e.storeOk);
    }
  }

  // ---- The ledger ----------------------------------------------------------------------

  /** At most one key was ever created and the record names it; the request is
      issued exactly when its one mail went out; a rejected request's key is gone. */
  ghost predicate Balanced(w: World) {
    && w.created == (if w.record.issuedKey.Some? then [w.record.issuedKey.value] else [])
    && (forall k :: k in w.live ==> k in w.created)
    && w.mails == (if w.record.status.Issued? then 1 else 0)
    && (w.record.status.Issued? ==> w.record.issuedKey.Some? && w.record.issuedKey.value in w.live)
    && (w.record.status.Rejected? && w.record.issuedKey.Some? ==> w.record.issuedKey.value !in w.live)
  }

  /** The approval gets as far as asking for a key. */
  predicate AsksForKey(w: World, e: ApproveEnv) {
    && e.readOk && !w.record.status.Issued? && !w.record.status.Rejected? && e.notifier && e.tokenOk
    && (w.record.importedAccount.Some? || e.imported.Some?)
  }

  predicate CreatesKey(w: World, e: ApproveEnv) {
    AsksForKey(w, e) && w.record.issuedKey.None? && !e.create.Refused?
  }

  predicate SendsMail(w: World, e: ApproveEnv) {
    AsksForKey(w, e) && KeyFor(w, e).1.Some? && e.mailOk
  }

  /** What an approval needs from outside: a key it has created is reported
      properly, and the store then accepts the record; likewise after a mail. */
  predicate Reliable(w: World, e: ApproveEnv) {
    && (CreatesKey(w, e) ==> e.create.Created? && e.storeOk)
    && (SendsMail(w, e) ==> e.storeOk)
  }

  /** An approval keeps the ledger balanced exactly under that condition. */
  lemma ApproveBalances(w: World, e: ApproveEnv)
    requires Balanced(w)
    ensures Balanced(Approved(w, e)) <==> Reliable(w, e)
  {
    if AsksForKey(w, e) {
      var (w1, key) := KeyFor(w, e);
      if CreatesKey(w, e) {
        assert w1.created == [e.create.id];
      }
    }
  }

  /** A rejection always does, whatever fails on the way. */
  lemma RejectBalances(w: World, e: RejectEnv)
    requires Balanced(w)
    ensures Balanced(TurnedDown(w, e))
  {
  }

  datatype Call = ApproveCall(a: ApproveEnv) | RejectCall(r: RejectEnv)

  function Perform(w: World, c: Call): World {
    match c
    case ApproveCall(e) => Approved(w, e)
    case RejectCall(e) => TurnedDown(w, e)
  }

  function PerformAll(w: World, calls: seq<Call>): World {
    if calls == [] then w else Perform(PerformAll(w, calls[..|calls| - 1]), calls[|calls| - 1])
  }

  predicate AllReliable(w: World, calls: seq<Call>) {
    calls == [] ||
    (&& AllReliable(w, calls[..|calls| - 1])
     && (calls[|calls| - 1].ApproveCall? ==>
           Reliable(PerformAll(w, calls[..|calls| - 1]), calls[|calls| - 1].a)))
  }

  /** The ledger is balanced after every call of the run. */
  ghost predicate BalancedThroughout(w: World, calls: seq<Call>) {
    Balanced(PerformAll(w, calls)) && (calls == [] || BalancedThroughout(w, calls[..|calls| - 1]))
  }

  /** Over every run from submission: at most one key, issued exactly with one
      mail, and no key left behind by a rejection, throughout, if and only if
      every approval is reliable. */
  lemma {:induction false} RunBalances(calls: seq<Call>)
    ensures BalancedThroughout(Submitted(), calls) <==> AllReliable(Submitted(), calls)
  {
    if calls != [] {
      var init, last := calls[..|calls| - 1], calls[|calls| - 1];
      RunBalances(init);
      var w := PerformAll(Submitted(), init);
      if Balanced(w) {
        if last.ApproveCall? {
          ApproveBalances(w, last.a);
        } else {
          RejectBalances(w, last.r);
        }
      }
    }
  }

  /** In terms of the outcomes alone: successful store writes and well-formed replies suffice. */
  lemma {:induction false} WellFormedIsReliable(w: World, calls: seq<Call>)
    requires forall i :: 0 <= i < |calls| && calls[i].ApproveCall? ==> calls[i].a.storeOk && !calls[i].a.create.Garbled?
    ensures AllReliable(w, calls)
  {
    if calls != [] {
      WellFormedIsReliable(w, calls[..|calls| - 1]);
    }
  }

  /** `issued` and `rejected` are absorbing: later calls change nothing at all. */
  lemma {:induction false} FinalIsFinal(w: World, calls: seq<Call>)
    requires w.record.status.Issued? || w.record.status.Rejected?
    ensures PerformAll(w, calls) == w
  {
    if calls != [] {
      FinalIsFinal(w, calls[..|calls| - 1]);
    }
  }

  /** A retry after a failed mail reuses the key. */
  lemma RetryReusesKey(w: World, first: ApproveEnv, second: ApproveEnv)
    requires Balanced(w) && CreatesKey(w, first) && Reliable(w, first) && !first.mailOk
    ensures var w1 := Approved(w, first);
            && w1.record.status.Failed? && w1.record.issuedKey == Some(first.create.id)
            && Approved(w1, second).created == w1.created
  {
  }

  /** With a store that fails after the mail did, the key is forgotten and a
      retry creates a second one. */
  lemma ForgottenKey(a: string, b: string)
    ensures var e := ApproveEnv(true, true, true, Some("acct"), Created(a), true, false, false);
            var w := Approved(Submitted(), e);
            && !Reliable(Submitted(), e)
            && Approved(w, e.(create := Created(b))).created == [a, b]
  {
  }

  // ---- What each call decides ----------------------------------------------------------

  predicate Open(w: World) {
    !w.record.status.Issued? && !w.record.status.Rejected?
  }

  /** An approval issues an open request exactly when everything it needs succeeds:
      the notifier, the credential, an account, a key that can be used, the mail
      and the store. */
  lemma IssuedExactly(w: World, e: ApproveEnv)
    requires Open(w)
    ensures Approved(w, e).record.status.Issued? <==>
              && e.readOk && e.notifier && e.tokenOk && e.mailOk && e.storeOk
              && (w.record.importedAccount.Some? || e.imported.Some?)
              && (match w.record.issuedKey
                  case Some(id) => e.loadOk && id in w.live
                  case None => e.create.Created?)
  {
  }

  /** A rejection takes effect exactly when the key, if there is one, was deleted;
      the account too, if there is one and the credential is still usable; and the
      store accepts it. */
  lemma RejectedExactly(w: World, e: RejectEnv)
    requires Open(w)
    ensures TurnedDown(w, e).record.status.Rejected? <==>
              && e.readOk && e.storeOk
              && (w.record.issuedKey.Some? ==> e.deleteKeyOk)
              && (w.record.importedAccount.Some? && e.tokenOk ==> e.deleteAccountOk)
  {
  }

  /** The status says what is on record: an issued request has an account and a
      key and no reason, a failed one a reason, a rejected one none. */
  ghost predicate Recorded(r: Record) {
    match r.status
    case Pending => r.importedAccount.None? && r.issuedKey.None? && r.failureReason.None?
    case Failed => r.failureReason.Some?
    case Issued => r.importedAccount.Some? && r.issuedKey.Some? && r.failureReason.None?
    case Rejected => r.failureReason.None?
  }

  lemma CallRecords(w: World, c: Call)
    requires Recorded(w.record)
    ensures Recorded(Perform(w, c).record)
    ensures w.record.importedAccount.Some? ==> Perform(w, c).record.importedAccount == w.record.importedAccount
    ensures w.record.issuedKey.Some? ==> Perform(w, c).record.issuedKey == w.record.issuedKey
    ensures w.record.importedAccount.None? && Perform(w, c).record.importedAccount.Some? ==>
              c.ApproveCall? && Perform(w, c).record.importedAccount == c.a.imported
    ensures w.record.issuedKey.None? && Perform(w, c).record.issuedKey.Some? ==>
              c.ApproveCall? && c.a.create == Created(Perform(w, c).record.issuedKey.value)
  {
  }

  /** Over every run, whatever fails: the status says what is on record, and an
      account or a key once recorded never changes. */
  lemma {:induction false} RunRecords(calls: seq<Call>, more: seq<Call>)
    ensures var w, v := PerformAll(Submitted(), calls), PerformAll(Submitted(), calls + more);
            && Recorded(v.record)
            && (w.record.importedAccount.Some? ==> v.record.importedAccount == w.record.importedAccount)
            && (w.record.issuedKey.Some? ==> v.record.issuedKey == w.record.issuedKey)
    decreases |calls| + |more|, |more|
  {
    if more != [] {
      var all := calls + more;
      assert all[..|all| - 1] == calls + more[..|more| - 1];
      RunRecords(calls, more[..|more| - 1]);
      CallRecords(PerformAll(Submitted(), all[..|all| - 1]), all[|all| - 1]);
    } else if calls != [] {
      assert calls + more == calls && calls + [] == calls;
      RunRecords(calls[..|calls| - 1], []);
      assert calls[..|calls| - 1] + [] == calls[..|calls| - 1];
      CallRecords(PerformAll(Submitted(), calls[..|calls| - 1]), calls[|calls| - 1]);
    } else {
      assert calls + more == [];
    }
  }

  /** What a failed approval leaves as the reason; the mailer's own message is one
      fixed text here. */
  lemma FailureReasons(w: World, e: ApproveEnv)
    requires Open(w) && e.readOk && e.storeOk
    ensures !e.notifier ==>
              Approved(w, e).record == w.record.(status := Failed, failureReason := Some("email notifier is not configured"))
    ensures SendsMail(w, e.(mailOk := true)) && !e.mailOk ==>
              Approved(w, e).record.status.Failed? && Approved(w, e).mails == w.mails
              && Approved(w, e).record.failureReason == Some("mail failed")
              && Approved(w, e).record.issuedKey.Some? && Approved(w, e).record.importedAccount.Some?
  {
  }

  // ---- Requests that can no longer be issued ------------------------------------------------

  /** The record names a key that no longer exists. */
  predicate Stranded(w: World) {
    w.record.issuedKey.Some? && w.record.issuedKey.value !in w.live && !w.record.status.Issued?
  }

  lemma StaysStranded(w: World, c: Call)
    requires Stranded(w)
    ensures Stranded(Perform(w, c))
  {
    if c.ApproveCall? && AsksForKey(w, c.a) {
      assert KeyFor(w, c.a) == (w, None);
    }
  }

  lemma {:induction false} StrandedForever(w: World, calls: seq<Call>)
    requires Stranded(w)
    ensures Stranded(PerformAll(w, calls))
  {
    if calls != [] {
      StrandedForever(w, calls[..|calls| - 1]);
      StaysStranded(PerformAll(w, calls[..|calls| - 1]), calls[|calls| - 1]);
    }
  }

  predicate EndsIssued(w: World, calls: seq<Call>) {
    PerformAll(w, calls).record.status.Issued?
  }

  /** A request that is not final can still be issued by some run if and only if
      no key is recorded or the recorded key exists. */
  lemma CanBeIssued(w: World)
    requires !w.record.status.Issued? && !w.record.status.Rejected?
    ensures (exists calls :: EndsIssued(w, calls))
            <==> w.record.issuedKey.None? || w.record.issuedKey.value in w.live
  {
    if w.record.issuedKey.None? || w.record.issuedKey.value in w.live {
      var call := ApproveCall(ApproveEnv(true, true, true, Some("account"), Created("key"), true, true, true));
      var calls := [call];
      assert calls[..|calls| - 1] == [];
      assert PerformAll(w, calls) == Perform(w, call);
      assert EndsIssued(w, calls);
    } else {
      forall calls ensures !EndsIssued(w, calls) {
        StrandedForever(w, calls);
      }
    }
  }

  /** A rejection that deletes the key, and then fails or not, leaves a request
      that no run of calls can issue: a key is only created once. */
  lemma HalfRejectedCannotBeIssued(w: World, r: RejectEnv, calls: seq<Call>)
    requires Balanced(w) && w.record.issuedKey.Some?
    requires r.readOk && r.deleteKeyOk && !w.record.status.Issued?
    ensures !EndsIssued(TurnedDown(w, r), calls)
  {
    StrandedForever(TurnedDown(w, r), calls);
  }
}
