/** The event stream of a comment task's AI run (crates/backend/src/handlers.rs,
    `admin_stream_comment_task_ai_output`).  Pumps and finaliser are those of an
    article run (crates/backend/src/comment_worker.rs), but this reader lists the
    chunks before it reads the status, and the comment store
    (crates/store/src/comments_store.rs) sorts every listing by batch index and
    refuses empty chunks. */
module CommentStream {
  import opened Basics
  import opened Run = RunStream

  // ---- Sorted listings ---------------------------------------------------------------

  function InsertByIndex(c: Chunk, s: seq<Chunk>): seq<Chunk> {
    if s == [] || BatchIndex(c) <= BatchIndex(s[0]) then [c] + s else [s[0]] + InsertByIndex(c, s[1..])
  }

  /** `sort_by(batch_index)`, which is stable. */
  function ByIndex(s: seq<Chunk>): seq<Chunk> {
    if s == [] then [] else InsertByIndex(s[0], ByIndex(s[1..]))
  }

  ghost predicate DistinctIndices(s: seq<Chunk>) {
    forall i, j :: 0 <= i < j < |s| ==> BatchIndex(s[i]) != BatchIndex(s[j])
  }

  lemma {:induction false} InsertAscends(c: Chunk, s: seq<Chunk>)
    requires Ascending(s) && forall x :: x in s ==> BatchIndex(x) != BatchIndex(c)
    ensures Ascending(InsertByIndex(c, s))
    ensures forall x :: x in InsertByIndex(c, s) <==> x == c || x in s
  {
    if s != [] {
      assert s == [s[0]] + s[1..];
      if BatchIndex(c) > BatchIndex(s[0]) {
        InsertAscends(c, s[1..]);
        var rest := InsertByIndex(c, s[1..]);
        forall j | 0 <= j < |rest| ensures BatchIndex(s[0]) < BatchIndex(rest[j]) {
          assert rest[j] in rest;
        }
      }
    }
  }

  lemma {:induction false} ByIndexAscends(s: seq<Chunk>)
    requires DistinctIndices(s)
    ensures Ascending(ByIndex(s))
    ensures forall x :: x in ByIndex(s) <==> x in s
  {
    if s != [] {
      assert s == [s[0]] + s[1..];
      ByIndexAscends(s[1..]);
      forall x | x in s[1..] ensures BatchIndex(x) != BatchIndex(s[0]) {
        var i :| 0 <= i < |s[1..]| && s[1..][i] == x;
        assert s[i + 1] == x;
      }
      InsertAscends(s[0], ByIndex(s[1..]));
    }
  }

  /** From a sorted listing exactly the chunks above the cursor are sent. */
  lemma SendsAbove(cursor: int, listing: seq<Chunk>)
    requires DistinctIndices(listing)
    ensures var (last, out) := EmitNew(cursor, ByIndex(listing));
            && Ascending(out) && last >= cursor
            && (forall c :: c in out <==> c in listing && BatchIndex(c) > cursor)
            && (forall c :: c in listing ==> BatchIndex(c) <= last)
            && (forall c :: c in out ==> BatchIndex(c) <= last)
  {
    var sorted := ByIndex(listing);
    ByIndexAscends(listing);
    EmitsRecords(cursor, sorted);
    forall c | c in listing ensures BatchIndex(c) <= EmitNew(cursor, sorted).0 {
      assert c in sorted;
    }
    forall c | c in listing && BatchIndex(c) > cursor ensures c in EmitNew(cursor, sorted).1 {
      assert c in sorted;
      var i :| 0 <= i < |sorted| && sorted[i] == c;
      assert IsRecord(cursor, sorted, i);
    }
  }

  // ---- The machine -------------------------------------------------------------------

  const COMMENT_LIMIT: nat := 5000

  datatype Follower =
    | AtListing
    | AtRun     // has listed chunks, not read the run's status yet
    | Done

  /** `from` is the client's `from_batch_index`; `listed` only records history:
      how many chunks were stored at the last listing. */
  datatype Stream = Stream(world: State, follower: Follower, from: int, cursor: int, sent: seq<Chunk>, listed: nat)

  datatype Step =
    | World(a: Action)   // a pump, or the finaliser
    | List
    | ReadStatus

  function Begin(from: int): Stream {
    Stream(Start(), AtListing, from, from, [], 0)
  }

  predicate Possible(s: Stream, e: Step) {
    match e
    case World(a) =>
      && !a.PollStatus? && !a.PollChunks? && Enabled(s.world, a)
      && (a.Store? ==> s.world.pumps[a.p].chunk.content != "")
    case List => s.follower.AtListing?
    case ReadStatus => s.follower.AtRun?
  }

  /** The rows of a listing before they are sorted: the first ones stored. */
  function Rows(stored: seq<Chunk>, n: nat): seq<Chunk>
    requires n <= |stored|
  {
    stored[..Min(COMMENT_LIMIT, n)]
  }

  function Next(s: Stream, e: Step): Stream
    requires Possible(s, e)
  {
    match e
    case World(a) => s.(world := Apply(s.world, a))
    case List =>
      var (cursor, news) := EmitNew(s.cursor, ByIndex(Rows(s.world.stored, |s.world.stored|)));
      s.(follower := AtRun, cursor := cursor, sent := s.sent + news, listed := |s.world.stored|)
    case ReadStatus => s.(follower := if s.world.final then Done else AtListing)
  }

  predicate ValidSteps(s: Stream, steps: seq<Step>)
    decreases |steps|
  {
    steps == [] || (Possible(s, steps[0]) && ValidSteps(Next(s, steps[0]), steps[1..]))
  }

  function Take(s: Stream, steps: seq<Step>): Stream
    requires ValidSteps(s, steps)
    decreases |steps|
  {
    if steps == [] then s else Take(Next(s, steps[0]), steps[1..])
  }

  /** The step stores a chunk the client wants below an index already listed. */
  predicate Overtakes(s: Stream, e: Step)
    requires Possible(s, e)
  {
    e.World? && e.a.Store? && s.from < BatchIndex(s.world.pumps[e.a.p].chunk) <= s.cursor
  }

  predicate NoneOvertakes(s: Stream, steps: seq<Step>)
    requires ValidSteps(s, steps)
    decreases |steps|
  {
    steps == [] || (!Overtakes(s, steps[0]) && NoneOvertakes(Next(s, steps[0]), steps[1..]))
  }

  // ---- What every run keeps ------------------------------------------------------------

  /** The chunks of the last listing. */
  function LastRows(s: Stream): seq<Chunk>
    requires s.listed <= |s.world.stored|
  {
    Rows(s.world.stored, s.listed)
  }

  /** Sent chunks are wanted, were listed, and lie at or below the cursor, as do
      all listed ones. */
  ghost predicate Sound(s: Stream) {
    && Numbered(s.world) && s.world.tickets <= TWO31
    && s.listed <= |s.world.stored| && s.from <= s.cursor
    && Ascending(s.sent)
    && (forall c :: c in s.sent ==> c in LastRows(s) && s.from < BatchIndex(c) <= s.cursor)
    && (forall c :: c in LastRows(s) ==> BatchIndex(c) <= s.cursor)
  }

  /** Before any overtaking: what was listed is sent, what came since lies above. */
  ghost predicate InStep(s: Stream)
    requires s.listed <= |s.world.stored|
  {
    && (forall c :: c in LastRows(s) && BatchIndex(c) > s.from ==> c in s.sent)
    && (forall i :: s.listed <= i < |s.world.stored| && BatchIndex(s.world.stored[i]) > s.from
          ==> BatchIndex(s.world.stored[i]) > s.cursor)
  }

  /** After one: some wanted chunk is unsent and no longer above the cursor. */
  ghost predicate LeftBehind(s: Stream) {
    exists c :: c in s.world.stored && c !in s.sent && s.from < BatchIndex(c) <= s.cursor
  }

  lemma IndexIsTicket(s: State, c: Chunk)
    requires Numbered(s) && s.tickets <= TWO31 && c in s.stored
    ensures BatchIndex(c) == c.ticket
  {
  }

  lemma StoredDistinct(s: State, n: nat)
    requires Numbered(s) && s.tickets <= TWO31 && n <= |s.stored|
    ensures DistinctIndices(s.stored[..n])
  {
    forall i, j | 0 <= i < j < n ensures BatchIndex(s.stored[i]) != BatchIndex(s.stored[j]) {
      IndexIsTicket(s, s.stored[i]);
      IndexIsTicket(s, s.stored[j]);
    }
  }

  lemma ListSends(s: Stream)
    requires Sound(s) && Possible(s, List)
    ensures var rows := Rows(s.world.stored, |s.world.stored|);
            var t := Next(s, List);
            && t.cursor >= s.cursor
            && (forall c :: c in t.sent <==> c in s.sent || (c in rows && BatchIndex(c) > s.cursor))
            && (forall c :: c in rows ==> BatchIndex(c) <= t.cursor)
            && Ascending(t.sent)
  {
    var rows := Rows(s.world.stored, |s.world.stored|);
    StoredDistinct(s.world, Min(COMMENT_LIMIT, |s.world.stored|));
    SendsAbove(s.cursor, rows);
    var out := EmitNew(s.cursor, ByIndex(rows)).1;
    forall i, j | 0 <= i < |s.sent| && 0 <= j < |out| ensures BatchIndex(s.sent[i]) < BatchIndex(out[j]) {
      assert s.sent[i] in s.sent && out[j] in out;
    }
    AscendingAppend(s.sent, out);
  }

  lemma AscendingAppend(a: seq<Chunk>, b: seq<Chunk>)
    requires Ascending(a) && Ascending(b)
    requires forall i, j :: 0 <= i < |a| && 0 <= j < |b| ==> BatchIndex(a[i]) < BatchIndex(b[j])
    ensures Ascending(a + b)
  {
  }

  /** Every row of an earlier listing is a row of a later one. */
  lemma RowsGrow(stored: seq<Chunk>, more: seq<Chunk>, m: nat, n: nat)
    requires stored <= more && m <= |stored| && m <= n <= |more|
    ensures forall c :: c in Rows(stored, m) ==> c in Rows(more, n)
    ensures m == n ==> Rows(stored, m) == Rows(more, n)
  {
    var a, b := Rows(stored, m), Rows(more, n);
    assert forall i :: 0 <= i < |a| ==> a[i] == b[i];
  }

  lemma ListSound(s: Stream)
    requires Sound(s) && Possible(s, List)
    ensures Sound(Next(s, List))
  {
    ListSends(s);
    RowsGrow(s.world.stored, s.world.stored, s.listed, |s.world.stored|);
  }

  lemma ListInStep(s: Stream)
    requires Sound(s) && InStep(s) && Possible(s, List)
    ensures Sound(Next(s, List)) && InStep(Next(s, List))
  {
    ListSound(s);
    ListSends(s);
    var stored := s.world.stored;
    forall c | c in Rows(stored, |stored|) && BatchIndex(c) > s.from ensures c in Next(s, List).sent {
      var i :| 0 <= i < Min(COMMENT_LIMIT, |stored|) && stored[i] == c;
      if i < s.listed {
        assert LastRows(s)[i] == c;
      }
    }
  }

  lemma ListLeftBehind(s: Stream)
    requires Sound(s) && LeftBehind(s) && Possible(s, List)
    ensures LeftBehind(Next(s, List))
  {
    ListSends(s);
    var c :| c in s.world.stored && c !in s.sent && s.from < BatchIndex(c) <= s.cursor;
    assert c !in Next(s, List).sent;
  }

  lemma WorldSound(s: Stream, a: Action)
    requires Sound(s) && Possible(s, World(a)) && Apply(s.world, a).tickets <= TWO31
    ensures Sound(Next(s, World(a))) && LastRows(Next(s, World(a))) == LastRows(s)
    ensures s.world.stored <= Apply(s.world, a).stored
  {
    StepNumbered(s.world, a);
    RowsGrow(s.world.stored, Apply(s.world, a).stored, s.listed, s.listed);
  }

  lemma StoreTracks(s: Stream, p: nat)
    requires Sound(s) && Possible(s, World(Store(p)))
    ensures Sound(Next(s, World(Store(p))))
    ensures InStep(s) && !Overtakes(s, World(Store(p))) ==> InStep(Next(s, World(Store(p))))
    ensures Overtakes(s, World(Store(p))) ==> LeftBehind(Next(s, World(Store(p))))
  {
    var c := s.world.pumps[p].chunk;
    var t := Next(s, World(Store(p)));
    WorldSound(s, Store(p));
    if Overtakes(s, World(Store(p))) {
      assert c !in s.world.stored;
      assert t.world.stored[|s.world.stored|] == c;
    }
  }

  /** Storing and pumping never send anything. */
  lemma WorldLeftBehind(s: Stream, a: Action)
    requires Sound(s) && LeftBehind(s) && Possible(s, World(a))
    ensures LeftBehind(Next(s, World(a)))
  {
    var c :| c in s.world.stored && c !in s.sent && s.from < BatchIndex(c) <= s.cursor;
    assert c in Apply(s.world, a).stored;
  }

  lemma StepTracks(s: Stream, e: Step)
    requires Sound(s) && Possible(s, e) && Next(s, e).world.tickets <= TWO31
    ensures Sound(Next(s, e))
    ensures InStep(s) ==> if Overtakes(s, e) then LeftBehind(Next(s, e)) else InStep(Next(s, e))
    ensures LeftBehind(s) ==> LeftBehind(Next(s, e))
  {
    match e
    case World(a) =>
      WorldSound(s, a);
      if a.Store? {
        StoreTracks(s, a.p);
      }
      if LeftBehind(s) {
        WorldLeftBehind(s, a);
      }
    case List =>
      ListSound(s);
      if InStep(s) {
        ListInStep(s);
      }
      if LeftBehind(s) {
        ListLeftBehind(s);
      }
    case ReadStatus =>
  }

  lemma {:induction false} TicketsGrow(s: Stream, steps: seq<Step>)
    requires ValidSteps(s, steps)
    ensures s.world.tickets <= Take(s, steps).world.tickets && Take(s, steps).from == s.from
    decreases |steps|
  {
    if steps != [] {
      TicketsGrow(Next(s, steps[0]), steps[1..]);
    }
  }

  lemma {:induction false} StaysBehind(s: Stream, steps: seq<Step>)
    requires Sound(s) && LeftBehind(s) && ValidSteps(s, steps) && Take(s, steps).world.tickets <= TWO31
    ensures Sound(Take(s, steps)) && LeftBehind(Take(s, steps))
    decreases |steps|
  {
    if steps != [] {
      TicketsGrow(Next(s, steps[0]), steps[1..]);
      StepTracks(s, steps[0]);
      StaysBehind(Next(s, steps[0]), steps[1..]);
    }
  }

  lemma {:induction false} RunTracks(s: Stream, steps: seq<Step>)
    requires Sound(s) && InStep(s) && ValidSteps(s, steps) && Take(s, steps).world.tickets <= TWO31
    ensures var t := Take(s, steps);
            Sound(t) && if NoneOvertakes(s, steps) then InStep(t) else LeftBehind(t)
    decreases |steps|
  {
    if steps != [] {
      TicketsGrow(Next(s, steps[0]), steps[1..]);
      StepTracks(s, steps[0]);
      if Overtakes(s, steps[0]) {
        StaysBehind(Next(s, steps[0]), steps[1..]);
      } else {
        RunTracks(Next(s, steps[0]), steps[1..]);
      }
    }
  }

  // ---- Completeness ------------------------------------------------------------------

  /** What was sent is all the stored chunks the client wants. */
  ghost predicate SentAll(s: Stream) {
    forall c :: c in s.sent <==> c in s.world.stored && BatchIndex(c) > s.from
  }

  /** The last listing returned every wanted chunk that is stored. */
  ghost predicate AllListed(s: Stream) {
    forall i :: Min(COMMENT_LIMIT, s.listed) <= i < |s.world.stored| ==> BatchIndex(s.world.stored[i]) <= s.from
  }

  lemma UnlistedUnsent(s: Stream, i: nat)
    requires Sound(s) && Min(COMMENT_LIMIT, s.listed) <= i < |s.world.stored|
    ensures s.world.stored[i] !in s.sent
  {
    var stored := s.world.stored;
    assert forall j :: 0 <= j < i ==> stored[j].ticket != stored[i].ticket;
    assert stored[i] !in LastRows(s);
  }

  lemma InStepSentAll(s: Stream)
    requires Sound(s) && InStep(s)
    ensures SentAll(s) <==> AllListed(s)
  {
    var stored, m := s.world.stored, Min(COMMENT_LIMIT, s.listed);
    if AllListed(s) {
      forall c | c in stored && BatchIndex(c) > s.from ensures c in s.sent {
        var i :| 0 <= i < |stored| && stored[i] == c;
        assert LastRows(s)[i] == c;
      }
      forall c | c in s.sent ensures c in stored {
        assert c in LastRows(s);
      }
    }
    if SentAll(s) {
      forall i | m <= i < |stored| ensures BatchIndex(stored[i]) <= s.from {
        UnlistedUnsent(s, i);
      }
    }
  }

  /** Over every run, joined or not, and whatever index the client starts from:
      chunks are sent in index order, each once; and they are all the stored
      chunks the client wants if and only if no chunk was stored below an index
      already listed and the last listing returned every one that is stored. */
  lemma CommentComplete(from: int, steps: seq<Step>)
    requires ValidSteps(Begin(from), steps) && Take(Begin(from), steps).world.tickets <= TWO31
    ensures var s := Take(Begin(from), steps);
            && Ascending(s.sent)
            && (SentAll(s) <==> NoneOvertakes(Begin(from), steps) && AllListed(s))
  {
    RunTracks(Begin(from), steps);
    var s := Take(Begin(from), steps);
    if NoneOvertakes(Begin(from), steps) {
      InStepSentAll(s);
    }
  }

  /** From the first chunk on, that means no more chunks than a listing returns
      and none since the last one. */
  lemma AllListedFromStart(s: Stream)
    requires Sound(s) && s.from == -1
    ensures AllListed(s) <==> |s.world.stored| <= COMMENT_LIMIT && s.listed == |s.world.stored|
  {
    var stored := s.world.stored;
    forall i | 0 <= i < |stored| ensures BatchIndex(stored[i]) >= 0 {
      IndexIsTicket(s.world, stored[i]);
    }
    var m := Min(COMMENT_LIMIT, s.listed);
    assert m < |stored| ==> BatchIndex(stored[m]) > s.from;
  }

  /** For a client that starts from the first chunk. */
  lemma CommentCompleteFromStart(steps: seq<Step>)
    requires ValidSteps(Begin(-1), steps) && Take(Begin(-1), steps).world.tickets <= TWO31
    ensures var s := Take(Begin(-1), steps);
            (forall c :: c in s.sent <==> c in s.world.stored) <==>
              NoneOvertakes(Begin(-1), steps) && |s.world.stored| <= 5000 && s.listed == |s.world.stored|
  {
    var s := Take(Begin(-1), steps);
    RunTracks(Begin(-1), steps);
    TicketsGrow(Begin(-1), steps);
    CommentComplete(-1, steps);
    AllListedFromStart(s);
    forall c | c in s.world.stored ensures BatchIndex(c) > -1 {
      IndexIsTicket(s.world, c);
    }
    assert SentAll(s) <==> forall c :: c in s.sent <==> c in s.world.stored;
  }

  /** The stream ends only after the run was finalised. */
  lemma {:induction false} DoneIsFinal(s: Stream, steps: seq<Step>)
    requires ValidSteps(s, steps) && (s.follower.Done? ==> s.world.final)
    ensures Take(s, steps).follower.Done? ==> Take(s, steps).world.final
    decreases |steps|
  {
    if steps != [] {
      DoneIsFinal(Next(s, steps[0]), steps[1..]);
    }
  }

  // ---- Runs that lose a chunk -----------------------------------------------------------

  lemma {:induction false} Onward(s: Stream, steps: seq<Step>, e: Step) returns (longer: seq<Step>)
    requires ValidSteps(s, steps) && Possible(Take(s, steps), e)
    ensures longer == steps + [e] && ValidSteps(s, longer) && Take(s, longer) == Next(Take(s, steps), e)
    decreases |steps|
  {
    longer := steps + [e];
    if steps == [] {
      assert longer == [e] && longer[1..] == [];
    } else {
      assert longer[1..] == steps[1..] + [e];
      var _ := Onward(Next(s, steps[0]), steps[1..], e);
    }
  }

  predicate JoinedSteps(steps: seq<Step>) {
    forall i :: 0 <= i < |steps| ==> steps[i] != World(FinaliseEarly)
  }

  /** Both pumps reach their end and the run is finalised. */
  lemma Finish(steps: seq<Step>) returns (longer: seq<Step>)
    requires ValidSteps(Begin(-1), steps) && JoinedSteps(steps)
    requires var w := Take(Begin(-1), steps).world;
             |w.pumps| == 2 && w.pumps[0].Reading? && w.pumps[1].Reading?
    ensures ValidSteps(Begin(-1), longer) && JoinedSteps(longer)
    ensures var s, t := Take(Begin(-1), steps), Take(Begin(-1), longer);
            t == s.(world := t.world) && t.world.stored == s.world.stored && t.world.final
            && t.world.tickets == s.world.tickets
  {
    longer := Onward(Begin(-1), steps, World(EndOfStream(0)));
    longer := Onward(Begin(-1), longer, World(EndOfStream(1)));
    longer := Onward(Begin(-1), longer, World(Finalise));
  }

  /** A chunk is stored right after a listing. */
  lemma StoredAfterListing(line: string) returns (steps: seq<Step>)
    requires line != ""
    ensures ValidSteps(Begin(-1), steps) && JoinedSteps(steps)
    ensures var s := Take(Begin(-1), steps);
            && s.follower.AtRun? && s.world.stored == [Chunk("stdout", 0, line)] && s.sent == []
            && |s.world.pumps| == 2 && s.world.pumps[0].Reading? && s.world.pumps[1].Reading?
  {
    steps := Onward(Begin(-1), [], World(ReadLine(0, line)));
    steps := Onward(Begin(-1), steps, List);
    steps := Onward(Begin(-1), steps, World(Store(0)));
  }

  /** Joining the pumps does not help this reader: the last chunk is stored and
      the run finalised between its listing and its reading of the status. */
  lemma LateChunkIsUnsent(line: string) returns (steps: seq<Step>)
    requires line != ""
    ensures ValidSteps(Begin(-1), steps) && JoinedSteps(steps)
    ensures var s := Take(Begin(-1), steps);
            s.follower.Done? && InOrder(s.world.stored) && |s.world.stored| == 1 && s.sent == []
  {
    steps := StoredAfterListing(line);
    steps := Finish(steps);
    steps := Onward(Begin(-1), steps, ReadStatus);
  }

  /** Stderr draws the second number, stores first, and is listed. */
  lemma StderrListed(a: string, b: string) returns (steps: seq<Step>)
    requires a != "" && b != "" && !Ignored(1, b)
    ensures ValidSteps(Begin(-1), steps) && JoinedSteps(steps)
    ensures var s := Take(Begin(-1), steps);
            var first, second := Chunk("stdout", 0, a), Chunk("stderr", 1, b);
            && s.follower.AtRun? && s.world.stored == [second] && s.sent == [second]
            && s.cursor == 1 && s.from == -1 && s.world.tickets == 2 && !s.world.final
            && |s.world.pumps| == 2 && s.world.pumps[0] == Holding(first, 0) && s.world.pumps[1].Reading?
  {
    steps := Onward(Begin(-1), [], World(ReadLine(0, a)));
    steps := Onward(Begin(-1), steps, World(ReadLine(1, b)));
    steps := Onward(Begin(-1), steps, World(Store(1)));
    OneRow(Chunk("stderr", 1, b));
    assert Take(Begin(-1), steps).world.stored == [Chunk("stderr", 1, b)];
    steps := Onward(Begin(-1), steps, List);
  }

  /** Stderr overtakes stdout, and a listing falls between the two stores. */
  lemma ListedBetweenStores(a: string, b: string) returns (steps: seq<Step>)
    requires a != "" && b != "" && !Ignored(1, b)
    ensures ValidSteps(Begin(-1), steps) && JoinedSteps(steps)
    ensures var s := Take(Begin(-1), steps);
            var first, second := Chunk("stdout", 0, a), Chunk("stderr", 1, b);
            && s.follower.AtListing? && s.world.stored == [second, first] && s.sent == [second]
            && s.cursor == 1 && s.from == -1 && s.world.tickets == 2 && !s.world.final
            && |s.world.pumps| == 2 && s.world.pumps[0].Reading? && s.world.pumps[1].Reading?
  {
    steps := StderrListed(a, b);
    steps := Onward(Begin(-1), steps, ReadStatus);
    steps := Onward(Begin(-1), steps, World(Store(0)));
  }

  lemma OneRow(c: Chunk)
    requires c.ticket == 1
    ensures Rows([c], 1) == [c] && EmitNew(-1, ByIndex([c])) == (1, [c])
  {
    assert [c][1..] == [] && ByIndex([c]) == [c];
    assert EmitNew(1, []) == (1, []) && [c] + [] == [c];
  }

  /** Then the other chunk is never sent, although the last listing returns it. */
  lemma OvertakenIsUnsent(a: string, b: string) returns (steps: seq<Step>)
    requires a != "" && b != "" && !Ignored(1, b)
    ensures ValidSteps(Begin(-1), steps) && JoinedSteps(steps)
    ensures var s := Take(Begin(-1), steps);
            var first, second := Chunk("stdout", 0, a), Chunk("stderr", 1, b);
            && s.follower.Done? && s.world.stored == [second, first] && s.listed == 2
            && s.sent == [second]
  {
    steps := ListedBetweenStores(a, b);
    steps := Finish(steps);
    var s := Take(Begin(-1), steps);
    var first, second := Chunk("stdout", 0, a), Chunk("stderr", 1, b);
    BothListed(first, second);
    steps := Onward(Begin(-1), steps, List);
    steps := Onward(Begin(-1), steps, ReadStatus);
  }

  lemma BothListed(first: Chunk, second: Chunk)
    requires first.ticket == 0 && second.ticket == 1
    ensures Rows([second, first], 2) == [second, first] && EmitNew(1, ByIndex([second, first])).1 == []
    ensures EmitNew(-1, ByIndex([second, first])).1 == [first, second]
  {
    assert [second, first][1..] == [first] && [first][1..] == [] && ByIndex([first]) == [first];
    assert InsertByIndex(second, [first][1..]) == [second];
    assert ByIndex([second, first]) == [first] + [second];
    assert ByIndex([second, first]) == [first, second];
    assert [first, second][1..] == [second] && [second][1..] == [];
    assert EmitNew(1, []) == (1, []) && EmitNew(1, [second]) == (1, []);
    assert [second] + EmitNew(1, []).1 == [second];
    assert EmitNew(0, [second]) == (1, [second]);
    assert [first] + [second] == [first, second];
  }

  lemma StoredOutOfOrder(a: string, b: string) returns (steps: seq<Step>)
    requires a != "" && b != "" && !Ignored(1, b)
    ensures ValidSteps(Begin(-1), steps) && JoinedSteps(steps)
    ensures var s := Take(Begin(-1), steps);
            && s.follower.AtListing? && s.world.stored == [Chunk("stderr", 1, b), Chunk("stdout", 0, a)]
            && s.sent == [] && s.cursor == -1 && |s.world.pumps| == 2
            && s.world.pumps[0].Reading? && s.world.pumps[1].Reading?
  {
    steps := Onward(Begin(-1), [], World(ReadLine(0, a)));
    steps := Onward(Begin(-1), steps, World(ReadLine(1, b)));
    steps := Onward(Begin(-1), steps, World(Store(1)));
    steps := Onward(Begin(-1), steps, World(Store(0)));
  }

  /** Stored in that order before any listing, both are sent: the store sorts. */
  lemma SortedListingSendsBoth(a: string, b: string) returns (steps: seq<Step>)
    requires a != "" && b != "" && !Ignored(1, b)
    ensures ValidSteps(Begin(-1), steps) && JoinedSteps(steps)
    ensures var s := Take(Begin(-1), steps);
            var first, second := Chunk("stdout", 0, a), Chunk("stderr", 1, b);
            s.follower.Done? && s.world.stored == [second, first] && s.sent == [first, second]
  {
    steps := StoredOutOfOrder(a, b);
    steps := Finish(steps);
    BothListed(Chunk("stdout", 0, a), Chunk("stderr", 1, b));
    steps := Onward(Begin(-1), steps, List);
    steps := Onward(Begin(-1), steps, ReadStatus);
  }
}
