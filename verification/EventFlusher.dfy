/** The task that batches behaviour events for the store
    (crates/backend/src/state.rs, `spawn_behavior_event_flusher`). */
module EventFlusher {
  import opened Basics

  const USIZE_MAX: nat := 0xFFFF_FFFF_FFFF_FFFF

  /** An event and its `estimate_behavior_event_bytes`. */
  datatype Event = Event(id: nat, bytes: nat)

  datatype RuntimeConfig = RuntimeConfig(flushBatchSize: nat, flushMaxBufferBytes: nat)

  datatype FlushConfig = FlushConfig(batchSize: nat, maxBufferBytes: nat)

  /** `behavior_flush_config`; both fields are usize. */
  function FlushConfigOf(c: RuntimeConfig): FlushConfig {
    FlushConfig(Max(c.flushBatchSize, 1), Max(Min(c.flushMaxBufferBytes, USIZE_MAX), 1))
  }

  function SatAdd(a: nat, b: nat): nat {
    Min(a + b, USIZE_MAX)
  }

  /** Which branch of the `select` runs.  `arrived` counts the events that have
      been sent when a receiving turn looks at the channel; the config is read at
      the head of the turn; `ok` is whether the store accepts the batch. */
  datatype Turn =
    | Notice                                              // shutdown channel changed, still false
    | Shutdown
    | Receive(arrived: nat, config: RuntimeConfig, ok: bool)
    | SendersGone(config: RuntimeConfig, ok: bool)        // closed; `recv` still yields what is left
    | Elapsed(config: RuntimeConfig, ok: bool)            // flush interval passed

  datatype Cause = Full | Timed | Final

  /** A batch handed to the store. */
  datatype Batch = Batch(events: seq<Event>, cause: Cause, ok: bool)

  function Total(events: seq<Event>): nat {
    if events == [] then 0 else Total(events[..|events| - 1]) + events[|events| - 1].bytes
  }

  function HandedOver(batches: seq<Batch>): seq<Event> {
    if batches == [] then [] else HandedOver(batches[..|batches| - 1]) + batches[|batches| - 1].events
  }

  /** Timed and full batches the store accepted: what `flush_count` counts. */
  function Flushes(batches: seq<Batch>): nat {
    if batches == [] then 0
    else
      var b := batches[|batches| - 1];
      Flushes(batches[..|batches| - 1]) + if b.ok && !b.cause.Final? then 1 else 0
  }

  predicate Reached(events: seq<Event>, c: FlushConfig) {
    |events| >= c.batchSize || Total(events) >= c.maxBufferBytes
  }

  function Without(events: seq<Event>): seq<Event>
    requires events != []
  {
    events[..|events| - 1]
  }

  /** Under one config: a batch is never empty and its last event is what took it
      to a limit, if anything did; it reached one exactly when it was full. */
  ghost predicate WellCut(b: Batch, c: FlushConfig) {
    && b.events != []
    && !Reached(Without(b.events), c)
    && (b.cause.Full? <==> Reached(b.events, c))
  }

  ghost predicate AllWellCut(batches: seq<Batch>, c: FlushConfig) {
    forall i :: 0 <= i < |batches| ==> WellCut(batches[i], c)
  }

  ghost predicate ConstantConfig(turns: seq<Turn>, c: FlushConfig) {
    forall i :: 0 <= i < |turns| ==>
      && (turns[i].Receive? ==> FlushConfigOf(turns[i].config) == c)
      && (turns[i].SendersGone? ==> FlushConfigOf(turns[i].config) == c)
      && (turns[i].Elapsed? ==> FlushConfigOf(turns[i].config) == c)
  }

  lemma TotalPush(events: seq<Event>, e: Event)
    ensures Total(events + [e]) == Total(events) + e.bytes
  {
    assert (events + [e])[..|events|] == events;
  }

  lemma PushBatch(batches: seq<Batch>, b: Batch)
    ensures HandedOver(batches + [b]) == HandedOver(batches) + b.events
    ensures Flushes(batches + [b]) == Flushes(batches) + if b.ok && !b.cause.Final? then 1 else 0
  {
    assert (batches + [b])[..|batches|] == batches;
  }

  /** The buffer after filling it up to event `next`. */
  ghost predicate Filled(channel: seq<Event>, from: nat, next: nat, c: FlushConfig, buffer0: seq<Event>, buffer: seq<Event>, bytes: nat)
    requires from <= next <= |channel|
  {
    && buffer == buffer0 + channel[from..next]
    && bytes == Min(Total(buffer), USIZE_MAX)
    && (buffer != [] && !Reached(buffer0, c) ==> !Reached(Without(buffer), c))
  }

  lemma FillStep(channel: seq<Event>, from: nat, next: nat, c: FlushConfig, buffer0: seq<Event>, buffer: seq<Event>, bytes: nat)
    requires from <= next < |channel| && Filled(channel, from, next, c, buffer0, buffer, bytes)
    requires !Reached(buffer0, c) ==> !Reached(buffer, c)
    ensures Filled(channel, from, next + 1, c, buffer0, buffer + [channel[next]], SatAdd(bytes, channel[next].bytes))
  {
    TotalPush(buffer, channel[next]);
    assert channel[from..next + 1] == channel[from..next] + [channel[next]];
    assert Without(buffer + [channel[next]]) == buffer;
  }

  lemma StillBelow(buffer: seq<Event>, bytes: nat, c: FlushConfig)
    requires bytes == Min(Total(buffer), USIZE_MAX) && c.maxBufferBytes <= USIZE_MAX
    ensures Reached(buffer, c) <==> |buffer| >= c.batchSize || bytes >= c.maxBufferBytes
  {
  }

  lemma FillStart(channel: seq<Event>, from: nat, c: FlushConfig, buffer0: seq<Event>, bytes0: nat)
    requires from < |channel| && bytes0 == Min(Total(buffer0), USIZE_MAX)
    ensures Filled(channel, from, from, c, buffer0, buffer0, bytes0)
  {
    assert buffer0 + channel[from..from] == buffer0;
    if buffer0 != [] {
      NotReachedPrefix(buffer0, c);
    }
  }

  /** Receive one event, then drain the channel while below both limits. */
  method Fill(channel: seq<Event>, from: nat, to: nat, c: FlushConfig, buffer0: seq<Event>, bytes0: nat)
    returns (buffer: seq<Event>, bytes: nat, next: nat)
    requires from < to <= |channel| && 1 <= c.maxBufferBytes <= USIZE_MAX
    requires bytes0 == Min(Total(buffer0), USIZE_MAX)
    ensures from < next <= to && buffer == buffer0 + channel[from..next]
    ensures bytes == Min(Total(buffer), USIZE_MAX)
    ensures next < to ==> Reached(buffer, c)
    ensures !Reached(buffer0, c) ==> !Reached(Without(buffer), c)
  {
    FillStart(channel, from, c, buffer0, bytes0);
    FillStep(channel, from, from, c, buffer0, buffer0, bytes0);
    buffer, bytes, next := buffer0 + [channel[from]], SatAdd(bytes0, channel[from].bytes), from + 1;
    while |buffer| < c.batchSize && bytes < c.maxBufferBytes && next < to
      invariant from < next <= to
      invariant Filled(channel, from, next, c, buffer0, buffer, bytes)
    {
      StillBelow(buffer, bytes, c);
      FillStep(channel, from, next, c, buffer0, buffer, bytes);
      bytes := SatAdd(bytes, channel[next].bytes);
      buffer := buffer + [channel[next]];
      next := next + 1;
    }
    StillBelow(buffer, bytes, c);
  }

  lemma NotReachedPrefix(events: seq<Event>, c: FlushConfig)
    requires events != []
    ensures !Reached(events, c) ==> !Reached(Without(events), c)
  {
  }

  /** `mem::take` the buffer and hand it to the store; count it if it succeeds
      and is not the last one. */
  method HandOver(batches0: seq<Batch>, buffer: seq<Event>, cause: Cause, ok: bool, count0: nat, ghost c: FlushConfig)
    returns (batches: seq<Batch>, count: nat)
    requires count0 == Flushes(batches0)
    ensures batches == batches0 + [Batch(buffer, cause, ok)]
    ensures HandedOver(batches) == HandedOver(batches0) + buffer
    ensures count == Flushes(batches)
    ensures AllWellCut(batches0, c) && WellCut(Batch(buffer, cause, ok), c) ==> AllWellCut(batches, c)
  {
    PushBatch(batches0, Batch(buffer, cause, ok));
    batches := batches0 + [Batch(buffer, cause, ok)];
    count := if ok && cause != Final then count0 + 1 else count0;
  }

  /** How the task stands: still going, ended because the channel was closed and
      empty, or cut off by the shutdown signal. */
  datatype End = Running | Drained | Cut

  /** The task, over every schedule of turns: nothing is lost, duplicated or
      reordered on the way to the store, the byte count is exact, and under a
      constant config every batch is cut at the limits.  If it ends because the
      senders are gone, every event they sent has been handed over; if shutdown
      cuts it off, exactly what it had not yet received is lost. */
  method RunFlusher(channel: seq<Event>, turns: seq<Turn>, ghost c: FlushConfig)
    returns (batches: seq<Batch>, buffer: seq<Event>, bufferedBytes: nat, flushCount: nat, received: nat, end: End)
    ensures received <= |channel|
    ensures HandedOver(batches) + buffer == channel[..received]
    ensures end.Drained? ==> HandedOver(batches) == channel
    ensures end.Cut? ==> HandedOver(batches) + channel[received..] == channel
    ensures end.Running? ==> bufferedBytes == Min(Total(buffer), USIZE_MAX)
    ensures flushCount == Flushes(batches)
    ensures (ConstantConfig(turns, c) && c.batchSize >= 1 && c.maxBufferBytes >= 1)
            ==> AllWellCut(batches, c) && !Reached(buffer, c)
    ensures MeetsSettings(batches, turns, c)
    ensures KeepsUp(turns, |channel|, received, buffer, end)
  {
    batches, buffer, bufferedBytes, flushCount, received, end := [], [], 0, 0, 0, Running;
    ghost var fixed := ConstantConfig(turns, c) && c.batchSize >= 1 && c.maxBufferBytes >= 1;
    var n := 0;
    while n < |turns| && end.Running?
      invariant 0 <= n <= |turns| && received <= |channel|
      invariant HandedOver(batches) + buffer == channel[..received]
      invariant !end.Running? ==> buffer == []
      invariant end.Drained? ==> received == |channel|
      invariant end.Running? ==> bufferedBytes == Min(Total(buffer), USIZE_MAX)
      invariant flushCount == Flushes(batches)
      invariant fixed ==> AllWellCut(batches, c) && !Reached(buffer, c)
      invariant KeepsUp(turns[..n], |channel|, received, buffer, end)
    {
      var turn := turns[n];
      assert turns[..n + 1] == turns[..n] + [turn];
      ghost var received0 := received;
      n := n + 1;
      match turn {
        case Notice =>
        case Shutdown =>
          batches, buffer, flushCount := FinalFlush(batches, buffer, flushCount, c);
          end := Cut;
        case SendersGone(config, ok) =>
          if received < |channel| {
            batches, buffer, bufferedBytes, flushCount, received :=
              ReceiveTurn(channel, |channel|, FlushConfigOf(config), ok, batches, buffer, bufferedBytes,
                          flushCount, received, c);
          } else {
            batches, buffer, flushCount := FinalFlush(batches, buffer, flushCount, c);
            end := Drained;
          }
        case Receive(arrived, config, ok) =>
          batches, buffer, bufferedBytes, flushCount, received :=
            ReceiveTurn(channel, Min(arrived, |channel|), FlushConfigOf(config), ok, batches, buffer, bufferedBytes,
                        flushCount, received, c);
        case Elapsed(_, ok) =>
          if buffer != [] {
            NotReachedPrefix(buffer, c);
            batches, flushCount := HandOver(batches, buffer, Timed, ok, flushCount, c);
            buffer, bufferedBytes := [], 0;
          }
      }
      KeepsUpStep(turns[..n - 1], turn, |channel|, received0, received, buffer, end);
    }
    KeepsUpWhole(turns, n, |channel|, received, buffer, end);
    AllAccounted(channel, received, HandedOver(batches), buffer);
    AllSettingsCut(batches, turns, c);
  }

  /** Turns that find the whole channel arrived. */
  function Chances(turns: seq<Turn>, size: nat): nat {
    if turns == [] then 0
    else
      var t := turns[|turns| - 1];
      Chances(turns[..|turns| - 1], size) + if t.SendersGone? || (t.Receive? && t.arrived >= size) then 1 else 0
  }

  function CountGone(turns: seq<Turn>): nat {
    if turns == [] then 0
    else CountGone(turns[..|turns| - 1]) + if turns[|turns| - 1].SendersGone? then 1 else 0
  }

  /** The task does not idle: it ends at a shutdown, and once it has found the
      senders gone more often than there are events; every turn that finds the
      whole channel arrived receives something, until all is received; and a turn
      on which the interval has elapsed leaves nothing in the buffer. */
  ghost predicate KeepsUp(turns: seq<Turn>, size: nat, received: nat, buffer: seq<Event>, end: End) {
    && (end.Cut? ==> exists i :: 0 <= i < |turns| && turns[i].Shutdown?)
    && (end.Drained? ==> CountGone(turns) > 0)
    && (end.Running? ==>
          && (forall i :: 0 <= i < |turns| ==> !turns[i].Shutdown?)
          && CountGone(turns) <= received && Min(Chances(turns, size), size) <= received
          && (turns != [] && turns[|turns| - 1].Elapsed? ==> buffer == []))
  }

  lemma KeepsUpStep(turns: seq<Turn>, t: Turn, size: nat, received0: nat, received: nat, buffer: seq<Event>, end: End)
    requires exists before :: KeepsUp(turns, size, received0, before, Running)
    requires received0 <= received && (end.Cut? <==> t.Shutdown?)
    requires end.Drained? ==> t.SendersGone?
    requires end.Running? && t.SendersGone? ==> received0 < received
    requires t.Receive? && t.arrived >= size && received0 < size ==> received0 < received
    requires t.Elapsed? ==> buffer == []
    ensures KeepsUp(turns + [t], size, received, buffer, end)
  {
    var all := turns + [t];
    assert all[..|turns|] == turns && all[|turns|] == t;
  }

  /** What has happened after the task ended does not matter. */
  lemma KeepsUpWhole(turns: seq<Turn>, n: nat, size: nat, received: nat, buffer: seq<Event>, end: End)
    requires n <= |turns| && (end.Running? ==> n == |turns|) && KeepsUp(turns[..n], size, received, buffer, end)
    ensures KeepsUp(turns, size, received, buffer, end)
  {
    if end.Running? {
      assert turns[..n] == turns;
    } else if end.Drained? {
      GoneGrows(turns, n);
    }
  }

  lemma {:induction false} GoneGrows(turns: seq<Turn>, n: nat)
    requires n <= |turns|
    ensures CountGone(turns[..n]) <= CountGone(turns)
    decreases |turns|
  {
    if n < |turns| {
      assert turns[..|turns| - 1][..n] == turns[..n];
      GoneGrows(turns[..|turns| - 1], n);
    } else {
      assert turns[..n] == turns;
    }
  }

  /** The admin settings stay the same. */
  ghost predicate ConstantSettings(turns: seq<Turn>, r: RuntimeConfig) {
    forall i :: 0 <= i < |turns| ==>
      && (turns[i].Receive? ==> turns[i].config == r)
      && (turns[i].SendersGone? ==> turns[i].config == r)
      && (turns[i].Elapsed? ==> turns[i].config == r)
  }

  /** What the settings promise of a batch: at most the batch size, and less than
      the byte limit without its last event, each setting being at least one; a
      batch is handed over for being full exactly when it has reached one of them. */
  ghost predicate CutAtSettings(b: Batch, r: RuntimeConfig) {
    var size := if r.flushBatchSize == 0 then 1 else r.flushBatchSize;
    var bytes := if r.flushMaxBufferBytes == 0 then 1 else r.flushMaxBufferBytes;
    && 1 <= |b.events| <= size && Total(Without(b.events)) < bytes
    && (b.cause.Full? <==> |b.events| == size || Total(b.events) >= bytes)
  }

  /** Under admin settings that do not change, every batch is what they promise. */
  ghost predicate MeetsSettings(batches: seq<Batch>, turns: seq<Turn>, c: FlushConfig) {
    forall r: RuntimeConfig :: ConstantSettings(turns, r) && c == FlushConfigOf(r) && r.flushMaxBufferBytes <= USIZE_MAX
      ==> forall i :: 0 <= i < |batches| ==> CutAtSettings(batches[i], r)
  }

  lemma AllSettingsCut(batches: seq<Batch>, turns: seq<Turn>, c: FlushConfig)
    requires (ConstantConfig(turns, c) && c.batchSize >= 1 && c.maxBufferBytes >= 1) ==> AllWellCut(batches, c)
    ensures MeetsSettings(batches, turns, c)
  {
    forall r: RuntimeConfig | ConstantSettings(turns, r) && c == FlushConfigOf(r) && r.flushMaxBufferBytes <= USIZE_MAX
      ensures forall i :: 0 <= i < |batches| ==> CutAtSettings(batches[i], r)
    {
      assert ConstantConfig(turns, c);
      forall i | 0 <= i < |batches| ensures CutAtSettings(batches[i], r) {
        SettingsCut(batches[i], c, r);
      }
    }
  }

  lemma SettingsCut(b: Batch, c: FlushConfig, r: RuntimeConfig)
    requires c == FlushConfigOf(r) && r.flushMaxBufferBytes <= USIZE_MAX && WellCut(b, c)
    ensures CutAtSettings(b, r)
  {
  }

  lemma AllAccounted(channel: seq<Event>, received: nat, handed: seq<Event>, buffer: seq<Event>)
    requires received <= |channel| && handed + buffer == channel[..received]
    ensures buffer == [] ==> handed + channel[received..] == channel
    ensures buffer == [] && received == |channel| ==> handed == channel
  {
    assert channel[..received] + channel[received..] == channel;
    if buffer == [] {
      assert handed + buffer == handed;
    }
  }

  /** A turn that received something hands over all it holds as one full batch
      exactly when that reaches a limit; otherwise earlier batches and the buffer stand. */
  ghost predicate OneTurn(batches0: seq<Batch>, batches: seq<Batch>, held: seq<Event>, buffer: seq<Event>,
                          flush: FlushConfig, ok: bool, some: bool)
  {
    if some && Reached(held, flush) then batches == batches0 + [Batch(held, Full, ok)] && buffer == []
    else batches == batches0 && buffer == held
  }

  /** The receiving branch. */
  method ReceiveTurn(channel: seq<Event>, to: nat, flush: FlushConfig, ok: bool,
        batches0: seq<Batch>, buffer0: seq<Event>, bytes0: nat, count0: nat, received0: nat, ghost c: FlushConfig)
    returns (batches: seq<Batch>, buffer: seq<Event>, bytes: nat, count: nat, received: nat)
    requires received0 <= |channel| && to <= |channel| && 1 <= flush.maxBufferBytes <= USIZE_MAX
    requires HandedOver(batches0) + buffer0 == channel[..received0]
    requires bytes0 == Min(Total(buffer0), USIZE_MAX) && count0 == Flushes(batches0)
    ensures received0 <= received <= |channel| && (received0 < to ==> received0 < received <= to)
    ensures HandedOver(batches) + buffer == channel[..received]
    ensures OneTurn(batches0, batches, buffer0 + channel[received0..received], buffer, flush, ok, received0 < received)
    ensures bytes == Min(Total(buffer), USIZE_MAX) && count == Flushes(batches)
    ensures (flush == c && c.batchSize >= 1 && AllWellCut(batches0, c) && !Reached(buffer0, c))
              ==> AllWellCut(batches, c) && !Reached(buffer, c)
  {
    batches, buffer, bytes, count, received := batches0, buffer0, bytes0, count0, received0;
    if received < to {
      buffer, bytes, received := Fill(channel, received, to, flush, buffer, bytes);
      StillInOrder(channel, received0, received, HandedOver(batches), buffer0);
      StillBelow(buffer, bytes, flush);
      if |buffer| >= flush.batchSize || bytes >= flush.maxBufferBytes {
        batches, count := HandOver(batches, buffer, Full, ok, count, c);
        buffer, bytes := [], 0;
        assert HandedOver(batches) + buffer == HandedOver(batches);
      }
    } else {
      assert buffer0 + channel[received0..received] == buffer0;
    }
  }

  lemma StillInOrder(channel: seq<Event>, from: nat, to: nat, handed: seq<Event>, buffer0: seq<Event>)
    requires from <= to <= |channel| && handed + buffer0 == channel[..from]
    ensures handed + (buffer0 + channel[from..to]) == channel[..to]
  {
    assert channel[..to] == channel[..from] + channel[from..to];
    assert handed + (buffer0 + channel[from..to]) == (handed + buffer0) + channel[from..to];
  }

  /** Hand over what is left; its outcome is only logged. */
  method FinalFlush(batches0: seq<Batch>, buffer0: seq<Event>, count0: nat, ghost c: FlushConfig)
    returns (batches: seq<Batch>, buffer: seq<Event>, count: nat)
    requires count0 == Flushes(batches0)
    ensures HandedOver(batches) + buffer == HandedOver(batches0) + buffer0 && buffer == []
    ensures count == Flushes(batches)
    ensures AllWellCut(batches0, c) && !Reached(buffer0, c) ==> AllWellCut(batches, c)
  {
    batches, buffer, count := batches0, buffer0, count0;
    if buffer != [] {
      NotReachedPrefix(buffer, c);
      batches, count := HandOver(batches, buffer, Final, true, count, c);
      buffer := [];
    }
  }

  /** What `WellCut` bounds, in the terms of the two limits. */
  lemma BatchBounds(b: Batch, c: FlushConfig)
    requires WellCut(b, c)
    ensures 1 <= |b.events| <= c.batchSize && Total(Without(b.events)) < c.maxBufferBytes
  {
  }

  // ---- Cutting is canonical ----------------------------------------------------------

  /** Two full batches that start at the same event are the same batch: where a
      batch ends does not depend on how the events trickled in. */
  lemma FullBatchesAgree(channel: seq<Event>, from: nat, a: Batch, b: Batch, c: FlushConfig)
    requires WellCut(a, c) && WellCut(b, c) && a.cause.Full? && b.cause.Full?
    requires from + |a.events| <= |channel| && from + |b.events| <= |channel|
    requires a.events == channel[from..from + |a.events|] && b.events == channel[from..from + |b.events|]
    ensures a.events == b.events
  {
    if |a.events| < |b.events| {
      PrefixCut(channel, from, |a.events|, |b.events| - 1);
      ReachedGrows(a.events, Without(b.events), c);
    } else if |b.events| < |a.events| {
      PrefixCut(channel, from, |b.events|, |a.events| - 1);
      ReachedGrows(b.events, Without(a.events), c);
    }
  }

  lemma PrefixCut(channel: seq<Event>, from: nat, m: nat, n: nat)
    requires m <= n && from + n + 1 <= |channel|
    ensures channel[from..from + n + 1][..n][..m] == channel[from..from + m]
  {
    var a, b := channel[from..from + n + 1][..n][..m], channel[from..from + m];
    assert |a| == m == |b|;
    assert forall i :: 0 <= i < m ==> a[i] == channel[from + i] == b[i];
  }

  lemma ReachedGrows(small: seq<Event>, large: seq<Event>, c: FlushConfig)
    requires |small| <= |large| && small == large[..|small|] && Reached(small, c)
    ensures Reached(large, c)
  {
    TotalGrows(small, large);
  }

  lemma {:induction false} TotalGrows(small: seq<Event>, large: seq<Event>)
    requires |small| <= |large| && small == large[..|small|]
    ensures Total(small) <= Total(large)
    decreases |large|
  {
    if |small| < |large| {
      assert large[..|large| - 1][..|small|] == small;
      TotalGrows(small, large[..|large| - 1]);
    } else {
      assert large == small;
    }
  }
}
