/** The polling loop behind the AI run event stream, over arbitrary query
    results (crates/backend/src/handlers.rs, `admin_article_request_ai_stream`). */
module AiStream {
  import opened RunStream

  datatype RunRecord = RunRecord(runId: string, status: string)

  /** What one turn of the loop finds. */
  datatype Poll =
    | ShuttingDown
    | RunsFailed                                        // list_ai_runs failed
    | NoRun                                             // no run yet
    | ChunksFailed(run: RunRecord)                      // list_ai_run_chunks failed
    | Found(run: RunRecord, chunks: seq<Chunk>)

  datatype Event =
    | ChunkEvent(chunk: Chunk)
    | FinalEvent(name: string, run: RunRecord)
    | QueryError

  const MAX_CONSECUTIVE_ERRORS: nat := 10
  const RUNNING := "running"

  /** The loop's variables, with the events sent so far. */
  datatype Loop = Loop(last: int, errors: nat, events: seq<Event>, closed: bool)

  const START := Loop(-1, 0, [], false)

  function AsEvents(chunks: seq<Chunk>): seq<Event> {
    seq(|chunks|, i requires 0 <= i < |chunks| => ChunkEvent(chunks[i]))
  }

  function FinalFor(run: RunRecord): Event {
    FinalEvent(if run.status == "success" then "done" else "error", run)
  }

  function Failed(l: Loop, errors: nat): Loop {
    if errors >= MAX_CONSECUTIVE_ERRORS
    then l.(errors := errors, events := l.events + [QueryError], closed := true)
    else l.(errors := errors)
  }

  /** One turn. Listing runs successfully already clears the error count. */
  function Turn(l: Loop, poll: Poll): Loop {
    if l.closed then l
    else
      match poll
      case ShuttingDown => l.(closed := true)
      case RunsFailed => Failed(l, l.errors + 1)
      case NoRun => l.(errors := 0)
      case ChunksFailed(_) => Failed(l, 1)
      case Found(run, chunks) =>
        var (last, news) := EmitNew(l.last, chunks);
        var sent := l.events + AsEvents(news);
        if run.status != RUNNING
        then Loop(last, 0, sent + [FinalFor(run)], true)
        else Loop(last, 0, sent, false)
  }

  function Turns(polls: seq<Poll>): Loop {
    if polls == [] then START else Turn(Turns(polls[..|polls| - 1]), polls[|polls| - 1])
  }

  // ---- The loop itself ---------------------------------------------------------------

  lemma EmitOne(last: int, c: Chunk)
    ensures EmitNew(last, [c]) == if BatchIndex(c) > last then (BatchIndex(c), [c]) else (last, [])
  {
    assert [c][1..] == [] && [c][0] == c;
    assert EmitNew(BatchIndex(c), []) == (BatchIndex(c), []) && EmitNew(last, []) == (last, []);
    assert [c] + [] == [c];
  }

  /** The `for chunk in &chunks` loop. */
  method ForwardChunks(chunks: seq<Chunk>, last0: int) returns (last: int, sent: seq<Event>)
    ensures last == EmitNew(last0, chunks).0 && sent == AsEvents(EmitNew(last0, chunks).1)
  {
    last, sent := last0, [];
    ghost var news: seq<Chunk> := [];
    var n := 0;
    while n < |chunks|
      invariant 0 <= n <= |chunks|
      invariant EmitNew(last0, chunks[..n]) == (last, news)
      invariant sent == AsEvents(news)
    {
      assert chunks[..n + 1] == chunks[..n] + [chunks[n]];
      EmitAppend(last0, chunks[..n], [chunks[n]]);
      EmitOne(last, chunks[n]);
      if BatchIndex(chunks[n]) > last {
        last := BatchIndex(chunks[n]);
        sent := sent + [ChunkEvent(chunks[n])];
        news := news + [chunks[n]];
      } else {
        assert news + [] == news;
      }
      n := n + 1;
    }
    assert chunks[..n] == chunks;
  }

  method StreamEvents(polls: seq<Poll>) returns (events: seq<Event>)
    ensures events == Turns(polls).events
  {
    events := [];
    var last, errors := -1, 0;
    var n := 0;
    while n < |polls|
      invariant 0 <= n <= |polls|
      invariant Turns(polls[..n]) == Loop(last, errors, events, false)
    {
      assert polls[..n + 1][..n] == polls[..n];
      ghost var done := polls[..n + 1];
      n := n + 1;
      match polls[n - 1] {
        case ShuttingDown =>
          StaysClosed(polls, n);
          return;
        case RunsFailed =>
          errors := errors + 1;
          if errors >= MAX_CONSECUTIVE_ERRORS {
            events := events + [QueryError];
            StaysClosed(polls, n);
            return;
          }
        case NoRun =>
          errors := 0;
        case ChunksFailed(_) =>
          errors := 0;            // cleared when the runs were listed
          errors := errors + 1;   // so the guard that follows in the source cannot hold
          assert errors < MAX_CONSECUTIVE_ERRORS;
        case Found(run, chunks) =>
          errors := 0;
          var sent;
          last, sent := ForwardChunks(chunks, last);
          events := events + sent;
          if run.status != RUNNING {
            events := events + [FinalFor(run)];
            StaysClosed(polls, n);
            return;
          }
      }
    }
    assert polls[..n] == polls;
  }

  lemma {:induction false} StaysClosed(polls: seq<Poll>, n: nat)
    requires n <= |polls| && Turns(polls[..n]).closed
    ensures Turns(polls) == Turns(polls[..n])
    decreases |polls| - n
  {
    if n == |polls| {
      assert polls[..n] == polls;
    } else {
      assert polls[..n + 1][..n] == polls[..n];
      StaysClosed(polls, n + 1);
    }
  }

  // ---- What the stream sends -----------------------------------------------------------

  /** All chunks the loop saw, in the order it saw them. */
  function Seen(polls: seq<Poll>): seq<Chunk> {
    if polls == [] then []
    else
      var init, poll := polls[..|polls| - 1], polls[|polls| - 1];
      Seen(init) + if !Turns(init).closed && poll.Found? then poll.chunks else []
  }

  function ChunksOf(events: seq<Event>): seq<Chunk> {
    if events == [] then []
    else
      ChunksOf(events[..|events| - 1])
      + if events[|events| - 1].ChunkEvent? then [events[|events| - 1].chunk] else []
  }

  lemma {:induction false} ChunksOfAppend(a: seq<Event>, b: seq<Event>)
    ensures ChunksOf(a + b) == ChunksOf(a) + ChunksOf(b)
    decreases |b|
  {
    if b == [] {
      assert a + b == a;
    } else {
      assert (a + b)[..|a + b| - 1] == a + b[..|b| - 1];
      ChunksOfAppend(a, b[..|b| - 1]);
    }
  }

  lemma {:induction false} ChunksOfEvents(chunks: seq<Chunk>)
    ensures ChunksOf(AsEvents(chunks)) == chunks
  {
    if chunks != [] {
      var init := chunks[..|chunks| - 1];
      assert AsEvents(chunks)[..|chunks| - 1] == AsEvents(init);
      ChunksOfEvents(init);
    }
  }

  /** The events one listing adds, with or without the final one. */
  lemma FoundChunks(l: Loop, run: RunRecord, chunks: seq<Chunk>)
    requires !l.closed
    ensures var t := Turn(l, Found(run, chunks));
            && t.last == EmitNew(l.last, chunks).0
            && ChunksOf(t.events) == ChunksOf(l.events) + EmitNew(l.last, chunks).1
  {
    var news := EmitNew(l.last, chunks).1;
    ChunksOfEvents(news);
    ChunksOfAppend(l.events, AsEvents(news));
    NoChunkAppended(l.events + AsEvents(news), FinalFor(run));
  }

  lemma OtherChunks(l: Loop, poll: Poll)
    requires l.closed || !poll.Found?
    ensures Turn(l, poll).last == l.last && ChunksOf(Turn(l, poll).events) == ChunksOf(l.events)
  {
    NoChunkAppended(l.events, QueryError);
  }

  lemma TurnChunks(l: Loop, poll: Poll, seen: seq<Chunk>)
    requires EmitNew(-1, seen) == (l.last, ChunksOf(l.events))
    ensures var more := if !l.closed && poll.Found? then poll.chunks else [];
            EmitNew(-1, seen + more) == (Turn(l, poll).last, ChunksOf(Turn(l, poll).events))
  {
    if !l.closed && poll.Found? {
      EmitAppend(-1, seen, poll.chunks);
      FoundChunks(l, poll.run, poll.chunks);
    } else {
      assert seen + [] == seen;
      OtherChunks(l, poll);
    }
  }

  lemma NoChunkAppended(events: seq<Event>, e: Event)
    requires !e.ChunkEvent?
    ensures ChunksOf(events + [e]) == ChunksOf(events)
  {
    assert (events + [e])[..|events|] == events;
  }

  lemma {:induction false} TurnsChunks(polls: seq<Poll>)
    ensures EmitNew(-1, Seen(polls)) == (Turns(polls).last, ChunksOf(Turns(polls).events))
  {
    if polls != [] {
      var init := polls[..|polls| - 1];
      TurnsChunks(init);
      TurnChunks(Turns(init), polls[|polls| - 1], Seen(init));
    }
  }

  /** Over arbitrary query results, the chunks sent have strictly increasing
      indices and are exactly the new maxima among all chunks seen. */
  lemma SendsRecords(polls: seq<Poll>)
    ensures var sent := ChunksOf(Turns(polls).events);
            && Ascending(sent)
            && forall c :: c in sent <==> RecordedIn(-1, Seen(polls), c)
  {
    TurnsChunks(polls);
    EmitsRecords(-1, Seen(polls));
  }

  // ---- The loop behind a run in progress -------------------------------------------------

  /** What the loop's queries return when `s` has reached its chunk listing:
      `done` is the record the finaliser leaves, `running` until it is there. */
  function PollAt(s: State, done: RunRecord): Poll
    requires s.reader.AtChunks?
  {
    Found(if s.reader.sawFinal then done else RunRecord(done.runId, RUNNING), Snapshot(s))
  }

  function PollBy(s: State, a: Action, done: RunRecord): seq<Poll>
    requires Enabled(s, a)
  {
    if a.PollChunks? then [PollAt(s, done)] else []
  }

  function PollsOf(s: State, run: seq<Action>, done: RunRecord): seq<Poll>
    requires ValidRun(s, run)
    decreases |run|
  {
    if run == [] then [] else PollBy(s, run[0], done) + PollsOf(Apply(s, run[0]), run[1..], done)
  }

  /** The loop that has seen what the machine's reader has seen. */
  function LoopOf(s: State, done: RunRecord): Loop {
    Loop(s.last, 0, AsEvents(s.emitted) + (if s.reader.Closed? then [FinalFor(done)] else []), s.reader.Closed?)
  }

  lemma PollMatches(s: State, done: RunRecord)
    requires Enabled(s, PollChunks) && done.status != RUNNING
    ensures Turn(LoopOf(s, done), PollAt(s, done)) == LoopOf(Apply(s, PollChunks), done)
  {
    var news := EmitNew(s.last, Snapshot(s)).1;
    assert AsEvents(s.emitted) + [] == AsEvents(s.emitted);
    assert AsEvents(s.emitted) + AsEvents(news) == AsEvents(s.emitted + news);
    assert AsEvents(s.emitted + news) + [] == AsEvents(s.emitted + news);
  }

  lemma OthersSendNothing(s: State, a: Action, done: RunRecord)
    requires Enabled(s, a) && !a.PollChunks?
    ensures LoopOf(Apply(s, a), done) == LoopOf(s, done)
  {
  }

  /** The loop, after `polls`, stands where the machine's reader stands. */
  ghost predicate Matches(s: State, polls: seq<Poll>, done: RunRecord) {
    Turns(polls) == LoopOf(s, done)
  }

  lemma StepMatches(s: State, a: Action, done: RunRecord, polls: seq<Poll>)
    requires Enabled(s, a) && done.status != RUNNING && Matches(s, polls, done)
    ensures Matches(Apply(s, a), polls + PollBy(s, a, done), done)
  {
    if a.PollChunks? {
      PollMatches(s, done);
      assert (polls + [PollAt(s, done)])[..|polls|] == polls;
    } else {
      OthersSendNothing(s, a, done);
      assert polls + [] == polls;
    }
  }

  lemma PollsSplit(s: State, run: seq<Action>, done: RunRecord, polls: seq<Poll>)
    requires run != [] && ValidRun(s, run)
    ensures polls + PollsOf(s, run, done)
            == polls + PollBy(s, run[0], done) + PollsOf(Apply(s, run[0]), run[1..], done)
  {
  }

  lemma {:induction false} LoopMatches(s: State, run: seq<Action>, done: RunRecord, polls: seq<Poll>)
    requires ValidRun(s, run) && done.status != RUNNING && Matches(s, polls, done)
    ensures Matches(Execute(s, run), polls + PollsOf(s, run, done), done)
    decreases |run|
  {
    if run == [] {
      assert polls + [] == polls;
    } else {
      PollsSplit(s, run, done, polls);
      StepMatches(s, run[0], done, polls);
      LoopMatches(Apply(s, run[0]), run[1..], done, polls + PollBy(s, run[0], done));
    }
  }

  lemma SameEvents(a: seq<Chunk>, b: seq<Chunk>, last: Event)
    ensures AsEvents(a) + [last] == AsEvents(b) + [last] <==> a == b
  {
    if AsEvents(a) + [last] == AsEvents(b) + [last] {
      assert |AsEvents(a) + [last]| == |a| + 1 && |AsEvents(b) + [last]| == |b| + 1;
      assert forall i :: 0 <= i < |a| ==> (AsEvents(a) + [last])[i] == ChunkEvent(a[i]);
      assert forall i :: 0 <= i < |b| ==> (AsEvents(b) + [last])[i] == ChunkEvent(b[i]);
    }
  }

  /** End to end: over every interleaving of pumps, finaliser and reader that
      joins the pumps, a closed stream has sent the new maxima of one listing,
      then the final event, and nothing else; every stored chunk is among them,
      once and in order, if and only if chunks became visible in index order and
      one listing can return them all. */
  lemma StreamSendsAll(run: seq<Action>, done: RunRecord)
    requires ValidRun(Start(), run) && Joined(run) && done.status != RUNNING
    requires Execute(Start(), run).reader.Closed?
    ensures var s := Execute(Start(), run);
            var events := Turns(PollsOf(Start(), run, done)).events;
            && events == AsEvents(EmitNew(-1, Snapshot(s)).1) + [FinalFor(done)]
            && (events == AsEvents(s.stored) + [FinalFor(done)] <==> InOrder(s.stored) && |s.stored| <= 4096)
            && events[|events| - 1] == FinalEvent(if done.status == "success" then "done" else "error", done)
  {
    var polls := PollsOf(Start(), run, done);
    assert AsEvents([]) + [] == [];
    LoopMatches(Start(), run, done, []);
    assert [] + polls == polls;
    StreamComplete(run);
    SameEvents(Execute(Start(), run).emitted, Execute(Start(), run).stored, FinalFor(done));
  }

  /** What an event tells the client: a final one comes from a run that has
      finished, named by its success; a chunk event carries a chunk that was listed. */
  ghost predicate Truthful(e: Event, polls: seq<Poll>) {
    match e
    case ChunkEvent(c) => exists i :: 0 <= i < |polls| && polls[i].Found? && c in polls[i].chunks
    case FinalEvent(name, run) =>
      && run.status != "running"
      && name == (if run.status == "success" then "done" else "error")
      && exists i :: 0 <= i < |polls| && polls[i].Found? && polls[i].run == run
    case QueryError => exists i :: 0 <= i < |polls| && (polls[i].RunsFailed? || polls[i].ChunksFailed?)
  }

  lemma TruthfulLater(e: Event, polls: seq<Poll>, p: Poll)
    requires Truthful(e, polls)
    ensures Truthful(e, polls + [p])
  {
    var more := polls + [p];
    assert forall i :: 0 <= i < |polls| ==> more[i] == polls[i];
  }

  lemma NewTruthful(l: Loop, polls: seq<Poll>, p: Poll, e: Event)
    requires e in Turn(l, p).events && e !in l.events
    ensures Truthful(e, polls + [p])
  {
    var more := polls + [p];
    assert more[|polls|] == p;
    if p.Found? {
      var news := EmitNew(l.last, p.chunks).1;
      if e.ChunkEvent? {
        assert e in AsEvents(news);
        var i :| 0 <= i < |AsEvents(news)| && AsEvents(news)[i] == e;
        EmitsListed(l.last, p.chunks, news[i]);
      }
    }
  }

  lemma {:induction false} EmitsListed(last: int, q: seq<Chunk>, c: Chunk)
    requires c in EmitNew(last, q).1
    ensures c in q
  {
    EmitsRecords(last, q);
    var i: nat :| IsRecord(last, q, i) && q[i] == c;
  }

  /** Over arbitrary query results every event is truthful. */
  lemma {:induction false} EventsAreTruthful(polls: seq<Poll>, e: Event)
    requires e in Turns(polls).events
    ensures Truthful(e, polls)
  {
    if polls != [] {
      var init, p := polls[..|polls| - 1], polls[|polls| - 1];
      assert polls == init + [p];
      if e in Turns(init).events {
        EventsAreTruthful(init, e);
        TruthfulLater(e, init, p);
      } else {
        NewTruthful(Turns(init), init, p, e);
      }
    }
  }

  /** A final event, the query error and a shutdown each end the stream: nothing
      follows them, and the first two come last. */
  lemma {:induction false} EndsOnce(polls: seq<Poll>)
    ensures forall i :: 0 <= i < |Turns(polls).events| - 1 ==> Turns(polls).events[i].ChunkEvent?
    ensures !Turns(polls).closed ==> forall i :: 0 <= i < |Turns(polls).events| ==> Turns(polls).events[i].ChunkEvent?
  {
    if polls != [] {
      EndsOnce(polls[..|polls| - 1]);
    }
  }

  /** A poll that finds the run finished ends the stream, and so does a shutdown. */
  lemma {:induction false} NothingAfterEnd(polls: seq<Poll>, end: Poll, more: seq<Poll>)
    requires end.ShuttingDown? || (end.Found? && end.run.status != "running")
    ensures Turns(polls + [end] + more) == Turns(polls + [end])
    ensures end.ShuttingDown? ==> Turns(polls + [end]).events == Turns(polls).events
  {
    var all := polls + [end] + more;
    assert (polls + [end])[..|polls|] == polls;
    assert all[..|polls| + 1] == polls + [end];
    StaysClosed(all, |polls| + 1);
  }

  /** As long as the runs can be listed, the stream never gives up, however
      often listing the chunks fails: that failure count restarts every turn. */
  lemma {:induction false} ChunkFailuresNeverGiveUp(polls: seq<Poll>)
    requires forall i :: 0 <= i < |polls| ==> !polls[i].RunsFailed?
    ensures QueryError !in Turns(polls).events && Turns(polls).errors <= 1
  {
    if polls != [] {
      ChunkFailuresNeverGiveUp(polls[..|polls| - 1]);
    }
  }

  /** Length of the streak of failures a sequence of polls ends in: a failed
      listing of chunks starts a new streak. */
  function Streak(polls: seq<Poll>): nat {
    if polls == [] then 0
    else
      match polls[|polls| - 1]
      case RunsFailed => Streak(polls[..|polls| - 1]) + 1
      case ChunksFailed(_) => 1
      case ShuttingDown => Streak(polls[..|polls| - 1])
      case _ => 0
  }

  /** At some turn the stream was open and a streak of ten was complete. */
  predicate StreakOfTen(polls: seq<Poll>) {
    polls != [] &&
    (|| StreakOfTen(polls[..|polls| - 1])
     || (!Turns(polls[..|polls| - 1]).closed && Streak(polls) >= 10))
  }

  /** The stream gives up exactly when a streak reaches ten before anything else
      closes it. */
  lemma {:induction false} GivesUpAtTen(polls: seq<Poll>)
    ensures QueryError in Turns(polls).events <==> StreakOfTen(polls)
    ensures !Turns(polls).closed ==> Turns(polls).errors == Streak(polls) < 10
  {
    if polls != [] {
      GivesUpAtTen(polls[..|polls| - 1]);
    }
  }

  // ---- A second run ------------------------------------------------------------------------

  lemma {:induction false} SeenGrows(polls: seq<Poll>, more: seq<Poll>)
    ensures Seen(polls) <= Seen(polls + more)
    decreases |more|
  {
    if more == [] {
      assert polls + [] == polls;
    } else {
      var init := more[..|more| - 1];
      assert (polls + more)[..|polls + more| - 1] == polls + init;
      SeenGrows(polls, init);
    }
  }

  lemma EmitFurther(known: seq<Chunk>, all: seq<Chunk>)
    requires known <= all
    ensures var (last, before) := EmitNew(-1, known);
            var after := EmitNew(-1, all).1;
            && before <= after
            && (forall c, d :: c in after[|before|..] && d in known ==> BatchIndex(c) > BatchIndex(d))
            && (forall c :: c in after[|before|..] <==> RecordedIn(last, all[|known|..], c))
  {
    var rest := all[|known|..];
    var (last, before) := EmitNew(-1, known);
    assert all == known + rest;
    EmitAppend(-1, known, rest);
    EmitsRecords(-1, known);
    EmitsRecords(last, rest);
    assert EmitNew(-1, all).1[|before|..] == EmitNew(last, rest).1;
  }

  /** The last index is kept across runs: whatever run later polls find, of its
      chunks exactly the new maxima above all indices seen before are sent. */
  lemma NewRunLosesChunks(polls: seq<Poll>, more: seq<Poll>)
    ensures var before, after := ChunksOf(Turns(polls).events), ChunksOf(Turns(polls + more).events);
            && before <= after && Seen(polls) <= Seen(polls + more)
            && (forall c, d :: c in after[|before|..] && d in Seen(polls) ==> BatchIndex(c) > BatchIndex(d))
            && (forall c :: c in after[|before|..] <==>
                  RecordedIn(Turns(polls).last, Seen(polls + more)[|Seen(polls)|..], c))
  {
    SeenGrows(polls, more);
    TurnsChunks(polls);
    TurnsChunks(polls + more);
    EmitFurther(Seen(polls), Seen(polls + more));
  }

  lemma OneListing(first: RunRecord, chunks: seq<Chunk>)
    requires InOrder(chunks)
    ensures ChunksOf(Turns([Found(first, chunks)]).events) == chunks && Seen([Found(first, chunks)]) == chunks
  {
    var polls := [Found(first, chunks)];
    assert polls[..0] == [] && [] + chunks == chunks;
    TurnsChunks(polls);
    EmitsAllIffInOrder(chunks);
  }

  /** So completeness needs a single run: once chunks of a run were listed in
      order, no chunk of another run numbered like them is ever sent. */
  lemma SecondRunStartsUnseen(first: RunRecord, chunks: seq<Chunk>, more: seq<Poll>)
    requires InOrder(chunks)
    ensures var sent := ChunksOf(Turns([Found(first, chunks)] + more).events);
            && chunks <= sent
            && forall c, d :: c in sent[|chunks|..] && d in chunks ==> BatchIndex(c) > BatchIndex(d)
  {
    OneListing(first, chunks);
    NewRunLosesChunks([Found(first, chunks)], more);
  }
}
