/** Streaming one AI run: two pumps store output chunks under one shared
    sequence, a finaliser closes the run, a polling reader forwards the chunks
    (crates/backend/src/article_request_worker.rs, handlers.rs). */
module RunStream {
  import opened Basics

  // ---- Chunks and their ids --------------------------------------------------------

  /** `ticket` is how many `fetch_add` calls on the shared AtomicI32 came before
      the one that numbered the chunk. */
  datatype Chunk = Chunk(stream: string, ticket: nat, content: string)

  const TWO31: int := 0x8000_0000
  const TWO32: int := 0x1_0000_0000

  /** The value an AtomicI32 holds after `n` increments from zero. */
  function ToI32(n: nat): int {
    (n + TWO31) % TWO32 - TWO31
  }

  function BatchIndex(c: Chunk): int {
    ToI32(c.ticket)
  }

  function Digits(n: nat): string {
    (if n < 10 then [] else Digits(n / 10)) + [('0' as int + n % 10) as char]
  }

  function Show(i: int): string {
    if i < 0 then "-" + Digits(-i) else Digits(i)
  }

  /** `format!("{run_id}-{batch_index}")`. */
  function ChunkId(runId: string, c: Chunk): string {
    runId + "-" + Show(BatchIndex(c))
  }

  function ReadDigits(s: string): int {
    if s == [] then 0 else ReadDigits(s[..|s| - 1]) * 10 + (s[|s| - 1] as int - '0' as int)
  }

  /** Decimal digits can be read back, and none of them is a minus sign. */
  lemma {:induction false} DigitsReadBack(n: nat)
    ensures ReadDigits(Digits(n)) == n
    ensures Digits(n) != [] && '0' <= Digits(n)[0] <= '9'
    decreases n
  {
    if n >= 10 {
      DigitsReadBack(n / 10);
      ReadLastDigit(Digits(n / 10), n % 10);
    } else {
      ReadLastDigit([], n);
      assert [] + [('0' as int + n) as char] == Digits(n);
    }
  }

  lemma ReadLastDigit(s: string, digit: nat)
    requires digit < 10
    ensures ReadDigits(s + [('0' as int + digit) as char]) == ReadDigits(s) * 10 + digit
  {
    var t := s + [('0' as int + digit) as char];
    assert t[..|t| - 1] == s;
  }

  /** Distinct indices of one run give distinct chunk ids. */
  lemma ShowInjective(i: int, j: int)
    requires Show(i) == Show(j)
    ensures i == j
  {
    var m, n := if i < 0 then -i else i, if j < 0 then -j else j;
    DigitsReadBack(m);
    DigitsReadBack(n);
    assert Show(i)[0] == Show(j)[0];
    if i < 0 && j < 0 {
      assert Show(i)[1..] == Digits(m) && Show(j)[1..] == Digits(n);
    }
  }

  lemma ToI32Injective(m: nat, n: nat)
    requires m < TWO32 && n < TWO32 && ToI32(m) == ToI32(n)
    ensures m == n
  {
  }

  // ---- What the reader emits from one snapshot ------------------------------------------

  /** The `for chunk in &chunks` loop: forward each chunk above the last index. */
  function EmitNew(last: int, chunks: seq<Chunk>): (int, seq<Chunk>)
    decreases |chunks|
  {
    if chunks == [] then (last, [])
    else if BatchIndex(chunks[0]) > last then
      var (l, rest) := EmitNew(BatchIndex(chunks[0]), chunks[1..]);
      (l, [chunks[0]] + rest)
    else EmitNew(last, chunks[1..])
  }

  /** Position `i` holds a new maximum: its index is above `last` and above all
      indices before it. */
  ghost predicate IsRecord(last: int, q: seq<Chunk>, i: nat) {
    && i < |q| && BatchIndex(q[i]) > last
    && forall j :: 0 <= j < i ==> BatchIndex(q[j]) < BatchIndex(q[i])
  }

  ghost predicate RecordedIn(last: int, q: seq<Chunk>, c: Chunk) {
    exists i: nat :: IsRecord(last, q, i) && q[i] == c
  }

  ghost predicate Ascending(s: seq<Chunk>) {
    forall i, j :: 0 <= i < j < |s| ==> BatchIndex(s[i]) < BatchIndex(s[j])
  }

  /** For arbitrary snapshots: what is emitted is strictly increasing, above
      `last`, and consists of exactly the new maxima. */
  lemma {:induction false} EmitsRecords(last: int, q: seq<Chunk>)
    ensures Ascending(EmitNew(last, q).1)
    ensures forall c :: c in EmitNew(last, q).1 ==> last < BatchIndex(c) <= EmitNew(last, q).0
    ensures forall c :: c in EmitNew(last, q).1 <==> RecordedIn(last, q, c)
    ensures forall i :: 0 <= i < |q| ==> BatchIndex(q[i]) <= EmitNew(last, q).0
    ensures last <= EmitNew(last, q).0
    decreases |q|
  {
    if q == [] {
      assert forall c :: !RecordedIn(last, q, c);
    } else {
      var top := if BatchIndex(q[0]) > last then BatchIndex(q[0]) else last;
      EmitsRecords(top, q[1..]);
      var rest := EmitNew(top, q[1..]).1;
      forall i | 0 <= i < |q| ensures BatchIndex(q[i]) <= EmitNew(last, q).0 {
        if i > 0 {
          assert q[1..][i - 1] == q[i];
        }
      }
      forall c ensures c in EmitNew(last, q).1 <==> RecordedIn(last, q, c) {
        RecordsShift(last, q, c);
      }
    }
  }

  lemma RecordsShift(last: int, q: seq<Chunk>, c: Chunk)
    requires q != []
    ensures var top := if BatchIndex(q[0]) > last then BatchIndex(q[0]) else last;
            RecordedIn(last, q, c) <==>
              (BatchIndex(q[0]) > last && q[0] == c) || RecordedIn(top, q[1..], c)
  {
    var top := if BatchIndex(q[0]) > last then BatchIndex(q[0]) else last;
    if i: nat :| IsRecord(last, q, i) && q[i] == c {
      if i > 0 {
        assert forall j :: 0 <= j < i - 1 ==> q[1..][j] == q[j + 1];
        assert IsRecord(top, q[1..], i - 1) && q[1..][i - 1] == c;
      }
    }
    if i: nat :| IsRecord(top, q[1..], i) && q[1..][i] == c {
      assert forall j :: 1 <= j < i + 1 ==> q[j] == q[1..][j - 1];
      assert IsRecord(last, q, i + 1) && q[i + 1] == c;
    }
    if BatchIndex(q[0]) > last && q[0] == c {
      assert IsRecord(last, q, 0) && q[0] == c;
    }
  }

  lemma {:induction false} EmitAppend(last: int, a: seq<Chunk>, b: seq<Chunk>)
    ensures var (l, first) := EmitNew(last, a);
            EmitNew(last, a + b) == (EmitNew(l, b).0, first + EmitNew(l, b).1)
    decreases |a|
  {
    if a == [] {
      assert a + b == b;
      assert [] + EmitNew(last, b).1 == EmitNew(last, b).1;
    } else {
      assert (a + b)[1..] == a[1..] + b;
      var top := if BatchIndex(a[0]) > last then BatchIndex(a[0]) else last;
      EmitAppend(top, a[1..], b);
      var (l, first) := EmitNew(top, a[1..]);
      assert [a[0]] + (first + EmitNew(l, b).1) == [a[0]] + first + EmitNew(l, b).1;
    }
  }

  // ---- The machine --------------------------------------------------------------------

  const MAX_SEGMENTS: nat := 4096
  const LIST_LIMIT: nat := 4096
  const PUMPS: nat := 2

  datatype Pump =
    | Reading(accepted: nat)
    | Holding(chunk: Chunk, accepted: nat)   // numbered, not stored yet
    | Ended

  datatype Reader =
    | AtStatus
    | AtChunks(sawFinal: bool)   // has read the run's status, not its chunks yet
    | Closed                     // the final event is out

  datatype State = State(
    tickets: nat, pumps: seq<Pump>, stored: seq<Chunk>, final: bool,
    reader: Reader, last: int, emitted: seq<Chunk>)

  function Start(): State {
    State(0, seq(PUMPS, _ => Reading(0)), [], false, AtStatus, -1, [])
  }

  function StreamName(p: nat): string {
    if p == 0 then "stdout" else "stderr"
  }

  datatype Action =
    | ReadLine(p: nat, line: string)
    | Store(p: nat)
    | StoreFails(p: nat)
    | EndOfStream(p: nat)
    | Finalise        // after both pumps have been joined
    | FinaliseEarly   // the runner timed out: the pumps are not joined
    | PollStatus
    | PollChunks

  /** The one diagnostic line of stderr that is never forwarded. */
  const NOISE := "state db missing rollout path for thread"

  /** `line.trim().contains(NOISE)`; the marker has no space at either end, so
      trimming cannot remove it. */
  predicate Ignored(p: nat, line: string) {
    p == 1 && exists i :: 0 <= i <= |line| && NOISE <= line[i..]
  }

  predicate Enabled(s: State, a: Action) {
    match a
    case ReadLine(p, _) => p < |s.pumps| && s.pumps[p].Reading?
    case Store(p) => p < |s.pumps| && s.pumps[p].Holding?
    case StoreFails(p) => p < |s.pumps| && s.pumps[p].Holding?
    case EndOfStream(p) => p < |s.pumps| && s.pumps[p].Reading?
    case Finalise => forall p :: 0 <= p < |s.pumps| ==> s.pumps[p].Ended?
    case FinaliseEarly => true
    case PollStatus => s.reader.AtStatus?
    case PollChunks => s.reader.AtChunks?
  }

  /** What `list_ai_run_chunks(_, Some(4096))` returns: the first stored rows. */
  function Snapshot(s: State): seq<Chunk> {
    s.stored[..Min(LIST_LIMIT, |s.stored|)]
  }

  function Apply(s: State, a: Action): State
    requires Enabled(s, a)
  {
    match a
    case ReadLine(p, line) =>
      var accepted := s.pumps[p].accepted;
      if Ignored(p, line) || accepted >= MAX_SEGMENTS then s
      else s.(pumps := s.pumps[p := Holding(Chunk(StreamName(p), s.tickets, line), accepted)],
              tickets := s.tickets + 1)
    case Store(p) =>
      s.(stored := s.stored + [s.pumps[p].chunk], pumps := s.pumps[p := Reading(s.pumps[p].accepted + 1)])
    case StoreFails(p) => s.(pumps := s.pumps[p := Reading(s.pumps[p].accepted)])
    case EndOfStream(p) => s.(pumps := s.pumps[p := Ended])
    case Finalise => s.(final := true)
    case FinaliseEarly => s.(final := true)
    case PollStatus => s.(reader := AtChunks(s.final))
    case PollChunks =>
      var (last, news) := EmitNew(s.last, Snapshot(s));
      s.(last := last, emitted := s.emitted + news, reader := if s.reader.sawFinal then Closed else AtStatus)
  }

  predicate ValidRun(s: State, run: seq<Action>)
    decreases |run|
  {
    run == [] || (Enabled(s, run[0]) && ValidRun(Apply(s, run[0]), run[1..]))
  }

  function Execute(s: State, run: seq<Action>): State
    requires ValidRun(s, run)
    decreases |run|
  {
    if run == [] then s else Execute(Apply(s, run[0]), run[1..])
  }

  predicate Joined(run: seq<Action>) {
    forall i :: 0 <= i < |run| ==> !run[i].FinaliseEarly?
  }

  // ---- Chunk ids never collide ------------------------------------------------------------

  ghost predicate Numbered(s: State) {
    && (forall i :: 0 <= i < |s.stored| ==> s.stored[i].ticket < s.tickets)
    && (forall p :: 0 <= p < |s.pumps| && s.pumps[p].Holding? ==> s.pumps[p].chunk.ticket < s.tickets)
    && (forall i, j :: 0 <= i < j < |s.stored| ==> s.stored[i].ticket != s.stored[j].ticket)
    && (forall p, q :: 0 <= p < q < |s.pumps| && s.pumps[p].Holding? && s.pumps[q].Holding?
          ==> s.pumps[p].chunk.ticket != s.pumps[q].chunk.ticket)
    && (forall i, p :: 0 <= i < |s.stored| && 0 <= p < |s.pumps| && s.pumps[p].Holding?
          ==> s.stored[i].ticket != s.pumps[p].chunk.ticket)
  }

  lemma {:induction false} RunNumbered(s: State, run: seq<Action>)
    requires Numbered(s) && ValidRun(s, run)
    ensures Numbered(Execute(s, run))
    decreases |run|
  {
    if run != [] {
      StepNumbered(s, run[0]);
      RunNumbered(Apply(s, run[0]), run[1..]);
    }
  }

  lemma StepNumbered(s: State, a: Action)
    requires Numbered(s) && Enabled(s, a)
    ensures Numbered(Apply(s, a))
  {
    match a
    case Store(p) => StoreNumbered(s, p);
    case ReadLine(p, line) => ReadNumbered(s, p, line);
    case _ =>
  }

  lemma StoreNumbered(s: State, p: nat)
    requires Numbered(s) && Enabled(s, Store(p))
    ensures Numbered(Apply(s, Store(p)))
  {
  }

  lemma ReadNumbered(s: State, p: nat, line: string)
    requires Numbered(s) && Enabled(s, ReadLine(p, line))
    ensures Numbered(Apply(s, ReadLine(p, line)))
  {
  }

  /** The two pumps never store two chunks under one id, as long as the shared
      counter has not gone once around. */
  lemma ChunkIdsDistinct(run: seq<Action>, runId: string, i: nat, j: nat)
    requires ValidRun(Start(), run)
    requires var s := Execute(Start(), run);
             s.tickets <= TWO32 && i < j < |s.stored|
    ensures var s := Execute(Start(), run);
            ChunkId(runId, s.stored[i]) != ChunkId(runId, s.stored[j])
  {
    RunNumbered(Start(), run);
    var s := Execute(Start(), run);
    if ChunkId(runId, s.stored[i]) == ChunkId(runId, s.stored[j]) {
      var a, b := Show(BatchIndex(s.stored[i])), Show(BatchIndex(s.stored[j]));
      assert (runId + "-" + a)[|runId| + 1..] == a && (runId + "-" + b)[|runId| + 1..] == b;
      ShowInjective(BatchIndex(s.stored[i]), BatchIndex(s.stored[j]));
      ToI32Injective(s.stored[i].ticket, s.stored[j].ticket);
    }
  }

  /** An id is the run's, a dash, and the index in decimal. */
  lemma ChunkIdReads(runId: string, c: Chunk) returns (digits: string)
    requires BatchIndex(c) >= 0
    ensures ChunkId(runId, c) == runId + "-" + digits && ReadDigits(digits) == BatchIndex(c)
  {
    digits := Digits(BatchIndex(c));
    DigitsReadBack(BatchIndex(c));
  }

  // ---- What is stored ------------------------------------------------------------------

  ghost predicate Noisy(line: string) {
    exists i :: 0 <= i <= |line| && "state db missing rollout path for thread" <= line[i..]
  }

  function CountOf(stored: seq<Chunk>, name: string): nat {
    if stored == [] then 0
    else CountOf(stored[..|stored| - 1], name) + if stored[|stored| - 1].stream == name then 1 else 0
  }

  /** Stored and numbered chunks come from the stream they name, carry no noise of
      stderr, and are at most 4096 a stream. */
  ghost predicate Admitted(s: State) {
    && |s.pumps| == 2
    && (forall i :: 0 <= i < |s.stored| ==> s.stored[i].stream == "stderr" ==> !Noisy(s.stored[i].content))
    && PumpAdmits(s, 0, "stdout") && PumpAdmits(s, 1, "stderr")
  }

  ghost predicate PumpAdmits(s: State, p: nat, name: string)
    requires p < |s.pumps|
  {
    && CountOf(s.stored, name) <= 4096
    && (!s.pumps[p].Ended? ==> s.pumps[p].accepted == CountOf(s.stored, name))
    && (s.pumps[p].Holding? ==>
          && s.pumps[p].chunk.stream == name && s.pumps[p].accepted < 4096
          && (name == "stderr" ==> !Noisy(s.pumps[p].chunk.content)))
  }

  /** A line is numbered and kept for storing unless it is that noise on stderr or
      its stream has stored 4096 chunks already. */
  lemma ReadsExactly(s: State, p: nat, line: string)
    requires Enabled(s, ReadLine(p, line)) && p < 2
    ensures var t := Apply(s, ReadLine(p, line));
            && (t.pumps[p].Holding? <==> !(p == 1 && Noisy(line)) && s.pumps[p].accepted < 4096)
            && (t.pumps[p].Holding? ==>
                  && t.pumps[p].chunk == Chunk(if p == 0 then "stdout" else "stderr", s.tickets, line)
                  && t.tickets == s.tickets + 1)
            && (!t.pumps[p].Holding? ==> t == s)
  {
  }

  lemma StoreAdmits(s: State, p: nat)
    requires Admitted(s) && Enabled(s, Store(p))
    ensures Admitted(Apply(s, Store(p)))
  {
    var t := Apply(s, Store(p));
    assert t.stored[..|t.stored| - 1] == s.stored;
  }

  lemma StepAdmits(s: State, a: Action)
    requires Admitted(s) && Enabled(s, a)
    ensures Admitted(Apply(s, a))
  {
    match a
    case ReadLine(p, line) => ReadsExactly(s, p, line);
    case Store(p) => StoreAdmits(s, p);
    case _ =>
  }

  lemma {:induction false} RunAdmits(s: State, run: seq<Action>)
    requires Admitted(s) && ValidRun(s, run)
    ensures Admitted(Execute(s, run))
    decreases |run|
  {
    if run != [] {
      StepAdmits(s, run[0]);
      RunAdmits(Apply(s, run[0]), run[1..]);
    }
  }

  /** Over every run: at most 4096 chunks a stream are stored, and none of the
      noise of stderr. */
  lemma StoredIsAdmitted(run: seq<Action>, c: Chunk)
    requires ValidRun(Start(), run)
    ensures var stored := Execute(Start(), run).stored;
            && CountOf(stored, "stdout") <= 4096 && CountOf(stored, "stderr") <= 4096
            && (c in stored && c.stream == "stderr" ==> !Noisy(c.content))
  {
    RunAdmits(Start(), run);
  }

  // ---- Completeness -------------------------------------------------------------------------

  /** Chunks became visible in index order, and the index never wrapped. */
  ghost predicate InOrder(stored: seq<Chunk>) {
    Ascending(stored) && forall i :: 0 <= i < |stored| ==> BatchIndex(stored[i]) >= 0
  }

  function Visible(s: State): nat {
    Min(LIST_LIMIT, |s.stored|)
  }

  lemma {:induction false} EmitNothingOld(last: int, known: seq<Chunk>)
    requires forall i :: 0 <= i < |known| ==> BatchIndex(known[i]) <= last
    ensures EmitNew(last, known) == (last, [])
  {
    if known != [] {
      EmitNothingOld(last, known[1..]);
    }
  }

  lemma {:induction false} EmitAllNew(last: int, news: seq<Chunk>)
    requires Ascending(news) && forall i :: 0 <= i < |news| ==> BatchIndex(news[i]) > last
    ensures EmitNew(last, news).1 == news
    decreases |news|
  {
    if news != [] {
      EmitAllNew(BatchIndex(news[0]), news[1..]);
      assert news == [news[0]] + news[1..];
    }
  }

  lemma {:induction false} EmitsNoMore(last: int, q: seq<Chunk>)
    ensures |EmitNew(last, q).1| <= |q|
    decreases |q|
  {
    if q != [] {
      EmitsNoMore(if BatchIndex(q[0]) > last then BatchIndex(q[0]) else last, q[1..]);
    }
  }

  /** A single reading emits everything exactly when it is in index order. */
  lemma EmitsAllIffInOrder(q: seq<Chunk>)
    ensures EmitNew(-1, q).1 == q <==> InOrder(q)
  {
    EmitsRecords(-1, q);
    if InOrder(q) {
      EmitAllNew(-1, q);
    }
    if EmitNew(-1, q).1 == q {
      forall i | 0 <= i < |q| ensures BatchIndex(q[i]) >= 0 {
        assert q[i] in EmitNew(-1, q).1;
      }
    }
  }

  /** Reading `known` again with more behind it adds what one reading of all adds. */
  lemma Reread(known: seq<Chunk>, news: seq<Chunk>)
    ensures var (last, out) := EmitNew(-1, known);
            var (last2, more) := EmitNew(last, known + news);
            EmitNew(-1, known + news) == (last2, out + more)
  {
    var (last, out) := EmitNew(-1, known);
    EmitsRecords(-1, known);
    EmitNothingOld(last, known);
    EmitAppend(last, known, news);
    EmitAppend(-1, known, news);
    assert [] + EmitNew(last, news).1 == EmitNew(last, news).1;
  }

  /** The reader has emitted what one reading of the first `m` stored chunks emits. */
  ghost predicate CaughtUp(s: State, m: nat) {
    m <= Visible(s) && EmitNew(-1, s.stored[..m]) == (s.last, s.emitted)
  }

  ghost predicate Behind(s: State) {
    exists m: nat :: CaughtUp(s, m)
  }

  lemma PollCatchesUp(s: State)
    requires Behind(s) && Enabled(s, PollChunks)
    ensures CaughtUp(Apply(s, PollChunks), Visible(s))
  {
    var m: nat :| CaughtUp(s, m);
    assert s.stored[..m] + s.stored[m..Visible(s)] == Snapshot(s);
    Reread(s.stored[..m], s.stored[m..Visible(s)]);
  }

  lemma OthersKeepUp(s: State, a: Action, m: nat)
    requires CaughtUp(s, m) && Enabled(s, a) && !a.PollChunks?
    ensures CaughtUp(Apply(s, a), m)
  {
    assert Apply(s, a).stored[..m] == s.stored[..m];
  }

  lemma StepBehind(s: State, a: Action)
    requires Behind(s) && Enabled(s, a)
    ensures Behind(Apply(s, a))
  {
    if a.PollChunks? {
      PollCatchesUp(s);
    } else {
      var m: nat :| CaughtUp(s, m);
      OthersKeepUp(s, a, m);
    }
  }

  /** In any run the reader is where one reading of some prefix would have left it. */
  lemma {:induction false} RunBehind(s: State, run: seq<Action>)
    requires Behind(s) && ValidRun(s, run)
    ensures Behind(Execute(s, run))
    decreases |run|
  {
    if run != [] {
      StepBehind(s, run[0]);
      RunBehind(Apply(s, run[0]), run[1..]);
    }
  }

  lemma StartBehind()
    ensures Behind(Start())
  {
    assert CaughtUp(Start(), 0);
  }

  predicate NothingStored(run: seq<Action>) {
    forall i :: 0 <= i < |run| ==> !run[i].Store?
  }

  /** A closed reader emits nothing more; the pumps may go on storing. */
  lemma {:induction false} AfterClose(s: State, run: seq<Action>)
    requires s.reader.Closed? && ValidRun(s, run)
    ensures var t := Execute(s, run);
            && t.reader.Closed? && t.emitted == s.emitted
            && s.stored <= t.stored
            && (|t.stored| == |s.stored| <==> NothingStored(run))
    decreases |run|
  {
    if run != [] {
      AfterClose(Apply(s, run[0]), run[1..]);
      assert run == [run[0]] + run[1..];
      assert NothingStored(run) <==> !run[0].Store? && NothingStored(run[1..]);
    }
  }

  /** Exactly when the final event comes after every stored chunk was emitted
      once and in order, over every run whatever, joined or not: chunks became
      visible in index order, one listing can return them all, and none was
      stored after the reading that closed the stream. */
  lemma ClosedComplete(before: seq<Action>, after: seq<Action>)
    requires ValidRun(Start(), before) && Execute(Start(), before).reader == AtChunks(true)
    requires ValidRun(Apply(Execute(Start(), before), PollChunks), after)
    ensures var s := Execute(Start(), before);
            var t := Execute(Apply(s, PollChunks), after);
            && t.emitted == EmitNew(-1, Snapshot(s)).1
            && (t.emitted == t.stored <==> InOrder(t.stored) && |t.stored| <= 4096 && NothingStored(after))
  {
    var s := Execute(Start(), before);
    var c := Apply(s, PollChunks);
    var t := Execute(c, after);
    StartBehind();
    RunBehind(Start(), before);
    PollCatchesUp(s);
    AfterClose(c, after);
    assert s.stored[..Visible(s)] == Snapshot(s);
    EmitsNoMore(-1, Snapshot(s));
    if |t.stored| == |s.stored| {
      assert t.stored == s.stored;
      CompleteListing(s.stored, Visible(s));
    }
  }

  /** A reading of the first `m` chunks emits all of them exactly if that is all there are. */
  lemma CompleteListing(stored: seq<Chunk>, m: nat)
    requires m <= |stored|
    ensures EmitNew(-1, stored[..m]).1 == stored <==> InOrder(stored) && m == |stored|
  {
    EmitsNoMore(-1, stored[..m]);
    if m == |stored| {
      assert stored[..m] == stored;
      EmitsAllIffInOrder(stored);
    }
  }

  /** With joined pumps: a closed reader has read everything that is visible. */
  ghost predicate Following(s: State) {
    && (s.final ==> forall p :: 0 <= p < |s.pumps| ==> s.pumps[p].Ended?)
    && (s.reader.AtChunks? && s.reader.sawFinal ==> s.final)
    && (s.reader.Closed? ==> s.final && CaughtUp(s, Visible(s)))
    && Behind(s)
  }

  lemma StepFollows(s: State, a: Action)
    requires Following(s) && Enabled(s, a) && !a.FinaliseEarly?
    ensures Following(Apply(s, a))
  {
    StepBehind(s, a);
    if a.PollChunks? {
      PollCatchesUp(s);
    } else if s.reader.Closed? {
      OthersKeepUp(s, a, Visible(s));
    }
  }

  lemma {:induction false} RunFollows(s: State, run: seq<Action>)
    requires Following(s) && ValidRun(s, run) && Joined(run)
    ensures Following(Execute(s, run))
    decreases |run|
  {
    if run != [] {
      StepFollows(s, run[0]);
      RunFollows(Apply(s, run[0]), run[1..]);
    }
  }

  /** What following means for chunks in index order: the reader is a prefix
      behind the store. */
  lemma FollowsAsPrefix(s: State)
    requires Following(s) && InOrder(s.stored)
    ensures s.emitted <= s.stored
    ensures s.reader.Closed? ==> s.emitted == Snapshot(s)
  {
    var m: nat :| CaughtUp(s, m);
    if s.reader.Closed? {
      m := Visible(s);
    }
    assert InOrder(s.stored[..m]);
    EmitsAllIffInOrder(s.stored[..m]);
  }

  /** Completeness: over every interleaving in which the run is finalised only
      after both pumps were joined, a closed stream has emitted exactly the new
      maxima of what one listing returns; these are all the stored chunks, once
      and in order, if and only if chunks became visible in index order and one
      listing can return them all. */
  lemma StreamComplete(run: seq<Action>)
    requires ValidRun(Start(), run) && Joined(run) && Execute(Start(), run).reader.Closed?
    ensures var s := Execute(Start(), run);
            && s.emitted == EmitNew(-1, Snapshot(s)).1
            && (forall c :: c in s.emitted <==> RecordedIn(-1, Snapshot(s), c))
            && (s.emitted == s.stored <==> InOrder(s.stored) && |s.stored| <= 4096)
  {
    StartBehind();
    RunFollows(Start(), run);
    var s := Execute(Start(), run);
    assert s.stored[..Visible(s)] == Snapshot(s);
    EmitsRecords(-1, Snapshot(s));
    CompleteListing(s.stored, Visible(s));
  }

  /** What has been emitted is strictly increasing and not above the last index. */
  ghost predicate EmittedInOrder(s: State) {
    Ascending(s.emitted) && forall i :: 0 <= i < |s.emitted| ==> BatchIndex(s.emitted[i]) <= s.last
  }

  lemma PollEmitsInOrder(s: State)
    requires EmittedInOrder(s) && Enabled(s, PollChunks)
    ensures EmittedInOrder(Apply(s, PollChunks))
  {
    EmitsRecords(s.last, Snapshot(s));
    var news := EmitNew(s.last, Snapshot(s)).1;
    assert forall i :: 0 <= i < |news| ==> news[i] in news;
  }

  /** Nothing emitted before is ever emitted again, in any run whatever. */
  lemma {:induction false} EmittedAscending(s: State, run: seq<Action>)
    requires EmittedInOrder(s) && ValidRun(s, run)
    ensures EmittedInOrder(Execute(s, run))
    decreases |run|
  {
    if run != [] {
      if run[0].PollChunks? {
        PollEmitsInOrder(s);
      }
      EmittedAscending(Apply(s, run[0]), run[1..]);
    }
  }

  // ---- Why the conditions are needed ------------------------------------------------------

  const TIMED_OUT: seq<Action> :=
    [ReadLine(0, "a"), FinaliseEarly, PollStatus, PollChunks, Store(0)]

  lemma RunCons(s: State, a: Action, rest: seq<Action>)
    requires Enabled(s, a) && ValidRun(Apply(s, a), rest)
    ensures ValidRun(s, [a] + rest) && Execute(s, [a] + rest) == Execute(Apply(s, a), rest)
  {
    assert ([a] + rest)[1..] == rest;
  }

  /** Without the join, the final event can come before a chunk is stored. */
  lemma TimeoutLosesChunk()
    ensures ValidRun(Start(), TIMED_OUT)
    ensures var s := Execute(Start(), TIMED_OUT);
            s.reader.Closed? && InOrder(s.stored) && |s.stored| == 1 && s.emitted == []
  {
    var s0 := Start();
    var s1 := Apply(s0, ReadLine(0, "a"));
    var s2 := Apply(s1, FinaliseEarly);
    var s3 := Apply(s2, PollStatus);
    var s4 := Apply(s3, PollChunks);
    assert ValidRun(Apply(s4, Store(0)), []);
    RunCons(s4, Store(0), []);
    RunCons(s3, PollChunks, [Store(0)]);
    RunCons(s2, PollStatus, [PollChunks, Store(0)]);
    RunCons(s1, FinaliseEarly, [PollStatus, PollChunks, Store(0)]);
    RunCons(s0, ReadLine(0, "a"), [FinaliseEarly, PollStatus, PollChunks, Store(0)]);
    assert [Store(0)] == [Store(0)] + [];
    assert [PollChunks, Store(0)] == [PollChunks] + [Store(0)];
    assert [PollStatus, PollChunks, Store(0)] == [PollStatus] + [PollChunks, Store(0)];
    assert [FinaliseEarly, PollStatus, PollChunks, Store(0)] == [FinaliseEarly] + [PollStatus, PollChunks, Store(0)];
    assert TIMED_OUT == [ReadLine(0, "a")] + [FinaliseEarly, PollStatus, PollChunks, Store(0)];
  }

  lemma {:induction false} RunAppend(s: State, run: seq<Action>, a: Action)
    requires ValidRun(s, run) && Enabled(Execute(s, run), a)
    ensures ValidRun(s, run + [a]) && Execute(s, run + [a]) == Apply(Execute(s, run), a)
    decreases |run|
  {
    if run == [] {
      assert [] + [a] == [a] && [a][1..] == [];
    } else {
      assert (run + [a])[1..] == run[1..] + [a];
      RunAppend(Apply(s, run[0]), run[1..], a);
    }
  }

  /** One more step at the end of a joined run. */
  lemma Extend(run: seq<Action>, a: Action) returns (longer: seq<Action>)
    requires ValidRun(Start(), run) && Joined(run) && Enabled(Execute(Start(), run), a) && !a.FinaliseEarly?
    ensures ValidRun(Start(), longer) && Joined(longer) && Execute(Start(), longer) == Apply(Execute(Start(), run), a)
  {
    RunAppend(Start(), run, a);
    longer := run + [a];
  }

  /** Both pumps reach the end of their output, the run is finalised, the reader closes. */
  lemma WindUp(run: seq<Action>) returns (longer: seq<Action>)
    requires ValidRun(Start(), run) && Joined(run)
    requires var s := Execute(Start(), run);
             && |s.pumps| == 2 && s.pumps[0].Reading? && s.pumps[1].Reading? && s.reader.AtStatus?
    ensures ValidRun(Start(), longer) && Joined(longer)
    ensures var t := Execute(Start(), longer);
            t.reader.Closed? && t.stored == Execute(Start(), run).stored
  {
    longer := Extend(run, EndOfStream(0));
    longer := Extend(longer, EndOfStream(1));
    longer := Extend(longer, Finalise);
    longer := Extend(longer, PollStatus);
    longer := Extend(longer, PollChunks);
  }

  /** Stdout draws its number first, stderr draws the next one, stores first, and
      is listed before stdout stores: in whatever order listings come, the reader
      is past the chunk of stdout when it appears. */
  lemma OvertakingRun(a: string, b: string) returns (run: seq<Action>)
    requires !Ignored(1, b)
    ensures ValidRun(Start(), run) && Joined(run) && Execute(Start(), run).reader.Closed?
    ensures Execute(Start(), run).stored == [Chunk("stderr", 1, b), Chunk("stdout", 0, a)]
  {
    run := Extend([], ReadLine(0, a));
    run := Extend(run, ReadLine(1, b));
    run := Extend(run, Store(1));
    run := Extend(run, PollStatus);
    run := Extend(run, PollChunks);
    run := Extend(run, Store(0));
    run := WindUp(run);
  }

  /** The ordinary way to lose a chunk in a joined run. */
  lemma OvertakenIsLost(a: string, b: string) returns (run: seq<Action>)
    requires !Ignored(1, b)
    ensures ValidRun(Start(), run) && Joined(run)
    ensures var s := Execute(Start(), run);
            var first, second := Chunk("stdout", 0, a), Chunk("stderr", 1, b);
            && s.reader.Closed? && s.stored == [second, first]
            && first !in s.emitted && second in s.emitted
  {
    run := OvertakingRun(a, b);
    StreamComplete(run);
    var s := Execute(Start(), run);
    assert Snapshot(s) == s.stored;
    assert IsRecord(-1, s.stored, 0) && !IsRecord(-1, s.stored, 1);
  }

  // ---- More than one listing returns -----------------------------------------------------

  function StdoutChunks(n: nat): seq<Chunk> {
    seq(n, i requires 0 <= i < n => Chunk("stdout", i, ""))
  }

  /** After stdout has stored `n` chunks. */
  function StdoutState(n: nat): State {
    State(n, [Reading(n), Reading(0)], StdoutChunks(n), false, AtStatus, -1, [])
  }

  lemma StdoutLine(n: nat)
    requires n < MAX_SEGMENTS
    ensures var s := StdoutState(n);
            && Enabled(s, ReadLine(0, "")) && Enabled(Apply(s, ReadLine(0, "")), Store(0))
            && Apply(Apply(s, ReadLine(0, "")), Store(0)) == StdoutState(n + 1)
  {
    assert StdoutChunks(n + 1) == StdoutChunks(n) + [Chunk("stdout", n, "")];
  }

  lemma {:induction false} StdoutRun(n: nat) returns (run: seq<Action>)
    requires n <= MAX_SEGMENTS
    ensures ValidRun(Start(), run) && Joined(run) && Execute(Start(), run) == StdoutState(n)
  {
    if n == 0 {
      run := [];
    } else {
      run := StdoutRun(n - 1);
      StdoutLine(n - 1);
      run := Extend(run, ReadLine(0, ""));
      run := Extend(run, Store(0));
    }
  }

  function LongState(): State {
    State(MAX_SEGMENTS + 1, [Reading(MAX_SEGMENTS), Reading(1)],
          StdoutChunks(MAX_SEGMENTS) + [Chunk("stderr", MAX_SEGMENTS, "")], false, AtStatus, -1, [])
  }

  lemma StderrLine()
    ensures var s := StdoutState(MAX_SEGMENTS);
            && Enabled(s, ReadLine(1, "")) && Enabled(Apply(s, ReadLine(1, "")), Store(1))
            && Apply(Apply(s, ReadLine(1, "")), Store(1)) == LongState()
  {
    assert !Ignored(1, "");
  }

  lemma LongRunInOrder(stored: seq<Chunk>)
    requires stored == LongState().stored
    ensures InOrder(stored) && |stored| == MAX_SEGMENTS + 1
  {
    assert forall i :: 0 <= i < |stored| ==> stored[i].ticket == i;
  }

  /** One line of stderr after a full stdout is stored and in index order, but no
      listing returns it. */
  lemma LongRunLosesChunk() returns (run: seq<Action>)
    ensures ValidRun(Start(), run) && Joined(run)
    ensures var s := Execute(Start(), run);
            && s.reader.Closed? && InOrder(s.stored) && |s.stored| == 4097
            && s.emitted == s.stored[..4096] && s.emitted != s.stored
  {
    run := StdoutRun(MAX_SEGMENTS);
    StderrLine();
    run := Extend(run, ReadLine(1, ""));
    run := Extend(run, Store(1));
    run := WindUp(run);
    var s := Execute(Start(), run);
    LongRunInOrder(s.stored);
    StreamComplete(run);
    FirstListing(s.stored);
  }

  lemma FirstListing(stored: seq<Chunk>)
    requires InOrder(stored) && |stored| > LIST_LIMIT
    ensures EmitNew(-1, stored[..LIST_LIMIT]).1 == stored[..LIST_LIMIT]
  {
    assert InOrder(stored[..LIST_LIMIT]);
    EmitsAllIffInOrder(stored[..LIST_LIMIT]);
  }
}
