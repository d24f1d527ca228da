/** The function and module reports of the profiler, before they are sorted and
    truncated (crates/backend/src/memory_profiler.rs). */
module ProfilerReports {
  import opened Basics
  import opened FiniteSums
  import opened Profiler
  import opened ProfilerAgreement

  datatype Row = Row(stack: Stack, stats: Stats)

  /** One entry of the map a report accumulates; `functions` is what the module
      report counts its functions from. */
  datatype Aggregate = Aggregate(
    liveBytes: nat, allocBytesTotal: nat, functions: set<string>, stackCount: nat, allocCount: nat, freeCount: nat)

  const NO_AGGREGATE := Aggregate(0, 0, {}, 0, 0, 0)

  /** Symbol resolution and `module_name_from_function` are not modelled: a name
      is some function of the stack. */
  type Naming = Stack -> string

  // ---- What a report should add up to ---------------------------------------------

  function LiveOf(rows: seq<Row>): nat {
    if rows == [] then 0 else LiveOf(rows[..|rows| - 1]) + rows[|rows| - 1].stats.liveBytes
  }

  lemma LiveOfPush(rows: seq<Row>, row: Row)
    ensures LiveOf(rows + [row]) == LiveOf(rows) + row.stats.liveBytes
  {
    assert (rows + [row])[..|rows|] == rows;
  }

  function Plus(a: Stats, b: Stats): Stats {
    Stats(a.liveBytes + b.liveBytes, a.allocBytesTotal + b.allocBytesTotal,
          a.allocCount + b.allocCount, a.freeCount + b.freeCount)
  }

  /** The statistics of the rows that go by `name`, added up without saturation. */
  function StatsNamed(rows: seq<Row>, naming: Naming, name: string): Stats {
    if rows == [] then NO_STATS
    else
      var init := StatsNamed(rows[..|rows| - 1], naming, name);
      if naming(rows[|rows| - 1].stack) == name then Plus(init, rows[|rows| - 1].stats) else init
  }

  function LiveNamed(rows: seq<Row>, naming: Naming, name: string): nat {
    StatsNamed(rows, naming, name).liveBytes
  }

  function CountNamed(rows: seq<Row>, naming: Naming, name: string): nat {
    if rows == [] then 0 else
      CountNamed(rows[..|rows| - 1], naming, name) + if naming(rows[|rows| - 1].stack) == name then 1 else 0
  }

  function Names(rows: seq<Row>, naming: Naming): set<string> {
    set i | 0 <= i < |rows| :: naming(rows[i].stack)
  }

  lemma {:induction false} LiveNamedBounded(rows: seq<Row>, naming: Naming, name: string)
    ensures LiveNamed(rows, naming, name) <= LiveOf(rows)
  {
    if rows != [] {
      LiveNamedBounded(rows[..|rows| - 1], naming, name);
    }
  }

  lemma {:induction false} UnusedNameIsZero(rows: seq<Row>, naming: Naming, name: string)
    requires name !in Names(rows, naming)
    ensures StatsNamed(rows, naming, name) == NO_STATS && CountNamed(rows, naming, name) == 0
  {
    if rows != [] {
      var init := rows[..|rows| - 1];
      assert naming(rows[|rows| - 1].stack) in Names(rows, naming);
      forall x | x in Names(init, naming) ensures x in Names(rows, naming) {
        var i :| 0 <= i < |init| && naming(init[i].stack) == x;
        assert rows[i] == init[i];
      }
      UnusedNameIsZero(init, naming, name);
    }
  }

  /** Grouping by name neither loses nor repeats a byte. */
  lemma {:induction false} GroupingConserves(rows: seq<Row>, naming: Naming, names: set<string>)
    requires Names(rows, naming) <= names
    ensures Sum(names, n => LiveNamed(rows, naming, n)) == LiveOf(rows)
  {
    if rows == [] {
      SumZero(names, n => LiveNamed(rows, naming, n));
    } else {
      var init, last := rows[..|rows| - 1], rows[|rows| - 1];
      forall x | x in Names(init, naming) ensures x in names {
        var i :| 0 <= i < |init| && naming(init[i].stack) == x;
        assert rows[i] == init[i] && naming(rows[i].stack) in Names(rows, naming);
      }
      GroupingConserves(init, naming, names);
      assert naming(last.stack) in Names(rows, naming);
      SumBump(names, n => LiveNamed(init, naming, n), n => LiveNamed(rows, naming, n), naming(last.stack), last.stats.liveBytes);
    }
  }

  // ---- The report loops -------------------------------------------------------------

  predicate Listed(stats: Stats) {
    !(stats.liveBytes == 0 && stats.allocBytesTotal == 0)
  }

  /** The rows are the listed entries of the stacks in `done`, each once. */
  ghost predicate RowsOf(rows: seq<Row>, stacks: map<Stack, Stats>, done: set<Stack>)
    requires done <= stacks.Keys
  {
    && (forall i, j :: 0 <= i < j < |rows| ==> rows[i].stack != rows[j].stack)
    && (forall i :: 0 <= i < |rows| ==>
          rows[i].stack in done && rows[i].stats == stacks[rows[i].stack] && Listed(rows[i].stats))
    && (forall k :: k in done && Listed(stacks[k]) ==> HasRow(rows, k))
    && LiveOf(rows) == Sum(done, k => LiveEntry(stacks, k))
  }

  ghost predicate HasRow(rows: seq<Row>, k: Stack) {
    exists i :: 0 <= i < |rows| && rows[i].stack == k
  }

  lemma AddListed(rows: seq<Row>, stacks: map<Stack, Stats>, done: set<Stack>, key: Stack)
    requires done <= stacks.Keys && key in stacks && key !in done && RowsOf(rows, stacks, done)
    requires Listed(stacks[key])
    ensures RowsOf(rows + [Row(key, stacks[key])], stacks, done + {key})
  {
    var more := rows + [Row(key, stacks[key])];
    assert LiveOf(more) == Sum(done + {key}, k => LiveEntry(stacks, k)) by {
      SumTake(done + {key}, k => LiveEntry(stacks, k), key);
      assert done + {key} - {key} == done;
      assert more[..|more| - 1] == rows;
    }
    forall k | k in done + {key} && Listed(stacks[k]) ensures HasRow(more, k) {
      if k == key {
        assert more[|rows|].stack == k;
      } else {
        assert HasRow(rows, k);
        var i :| 0 <= i < |rows| && rows[i].stack == k;
        assert more[i].stack == k;
      }
    }
  }

  lemma AddRow(rows: seq<Row>, stacks: map<Stack, Stats>, done: set<Stack>, key: Stack)
    requires done <= stacks.Keys && key in stacks && key !in done && RowsOf(rows, stacks, done)
    ensures RowsOf(if Listed(stacks[key]) then rows + [Row(key, stacks[key])] else rows, stacks, done + {key})
  {
    if Listed(stacks[key]) {
      AddListed(rows, stacks, done, key);
    } else {
      SumTake(done + {key}, k => LiveEntry(stacks, k), key);
      assert done + {key} - {key} == done;
    }
  }

  /** `collect_stack_rows`: every entry with live or allocated bytes, and their
      saturating total. */
  method CollectStackRows(stacks: map<Stack, Stats>) returns (total: nat, rows: seq<Row>)
    ensures total == Min(LiveOf(rows), U64_MAX)
    ensures RowsOf(rows, stacks, stacks.Keys)
    ensures forall k :: k in stacks ==>
              (HasRow(rows, k) <==> stacks[k].liveBytes > 0 || stacks[k].allocBytesTotal > 0)
  {
    total, rows := 0, [];
    var todo := stacks.Keys;
    ghost var done: set<Stack> := {};
    while todo != {}
      invariant done + todo == stacks.Keys && done !! todo
      invariant total == Min(LiveOf(rows), U64_MAX)
      invariant RowsOf(rows, stacks, done)
      decreases todo
    {
      var key :| key in todo;
      assert key in stacks && key !in done;
      var stats := stacks[key];
      AddRow(rows, stacks, done, key);
      todo, done := todo - {key}, done + {key};
      if stats.liveBytes == 0 && stats.allocBytesTotal == 0 {
        continue;
      }
      total := SatAdd(total, stats.liveBytes);
      LiveOfPush(rows, Row(key, stats));
      rows := rows + [Row(key, stats)];
    }
    assert done == stacks.Keys;
  }

  function LiveEntry(stacks: map<Stack, Stats>, k: Stack): nat {
    if k in stacks then stacks[k].liveBytes else 0
  }

  /** One row entered into the map. */
  function Entered(agg: map<string, Aggregate>, row: Row, name: string, fn: string): map<string, Aggregate> {
    var e := if name in agg then agg[name] else NO_AGGREGATE;
    agg[name := Aggregate(
      SatAdd(e.liveBytes, row.stats.liveBytes), SatAdd(e.allocBytesTotal, row.stats.allocBytesTotal),
      e.functions + {fn}, SatAdd(e.stackCount, 1),
      SatAdd(e.allocCount, row.stats.allocCount), SatAdd(e.freeCount, row.stats.freeCount))]
  }

  /** The map says, name by name, what the rows add up to. */
  ghost predicate Reports(agg: map<string, Aggregate>, rows: seq<Row>, naming: Naming) {
    && agg.Keys == Names(rows, naming)
    && forall n :: n in agg ==>
         && Totals(agg[n], StatsNamed(rows, naming, n))
         && agg[n].stackCount == Min(CountNamed(rows, naming, n), U64_MAX)
  }

  /** The counters of an aggregate are those sums, each saturated. */
  predicate Totals(e: Aggregate, sum: Stats) {
    && e.liveBytes == Min(sum.liveBytes, U64_MAX)
    && e.allocBytesTotal == Min(sum.allocBytesTotal, U64_MAX)
    && e.allocCount == Min(sum.allocCount, U64_MAX)
    && e.freeCount == Min(sum.freeCount, U64_MAX)
  }

  lemma EnteredReports(agg: map<string, Aggregate>, rows: seq<Row>, naming: Naming, row: Row, fn: string)
    requires Reports(agg, rows, naming)
    ensures Reports(Entered(agg, row, naming(row.stack), fn), rows + [row], naming)
  {
    var more := rows + [row];
    var out := Entered(agg, row, naming(row.stack), fn);
    assert more[..|more| - 1] == rows && more[|more| - 1] == row;
    assert Names(more, naming) == Names(rows, naming) + {naming(row.stack)} by {
      forall x | x in Names(rows, naming) ensures x in Names(more, naming) {
        var i :| 0 <= i < |rows| && naming(rows[i].stack) == x;
        assert more[i] == rows[i];
      }
      assert naming(more[|rows|].stack) in Names(more, naming);
      forall x | x in Names(more, naming) ensures x in Names(rows, naming) + {naming(row.stack)} {
        var i :| 0 <= i < |more| && naming(more[i].stack) == x;
        if i < |rows| {
          assert rows[i] == more[i];
        }
      }
    }
    forall n | n in out
      ensures Totals(out[n], StatsNamed(more, naming, n))
      ensures out[n].stackCount == Min(CountNamed(more, naming, n), U64_MAX)
    {
      if n !in agg {
        UnusedNameIsZero(rows, naming, n);
      }
    }
  }

  /** Each entry lists the functions of its rows. */
  ghost predicate ListsFunctions(agg: map<string, Aggregate>, rows: seq<Row>, functionOf: Naming, naming: Naming) {
    forall n :: n in agg ==> forall f :: f in agg[n].functions <==> UsesFunction(rows, functionOf, naming, n, f)
  }

  ghost predicate UsesFunction(rows: seq<Row>, functionOf: Naming, naming: Naming, name: string, fn: string) {
    exists i :: 0 <= i < |rows| && naming(rows[i].stack) == name && functionOf(rows[i].stack) == fn
  }

  lemma UsesMore(rows: seq<Row>, row: Row, functionOf: Naming, naming: Naming, name: string, fn: string)
    ensures UsesFunction(rows + [row], functionOf, naming, name, fn) <==>
              UsesFunction(rows, functionOf, naming, name, fn) || (naming(row.stack) == name && functionOf(row.stack) == fn)
  {
    var more := rows + [row];
    if UsesFunction(rows, functionOf, naming, name, fn) {
      var i :| 0 <= i < |rows| && naming(rows[i].stack) == name && functionOf(rows[i].stack) == fn;
      assert more[i] == rows[i];
    }
    if UsesFunction(more, functionOf, naming, name, fn) {
      var i :| 0 <= i < |more| && naming(more[i].stack) == name && functionOf(more[i].stack) == fn;
      assert i < |rows| ==> rows[i] == more[i];
    }
    assert more[|rows|] == row;
  }

  lemma UnusedNameHasNoFunction(rows: seq<Row>, functionOf: Naming, naming: Naming, name: string, fn: string)
    requires name !in Names(rows, naming)
    ensures !UsesFunction(rows, functionOf, naming, name, fn)
  {
  }

  lemma EnteredLists(agg: map<string, Aggregate>, rows: seq<Row>, functionOf: Naming, naming: Naming, row: Row)
    requires Reports(agg, rows, naming) && ListsFunctions(agg, rows, functionOf, naming)
    ensures ListsFunctions(Entered(agg, row, naming(row.stack), functionOf(row.stack)), rows + [row], functionOf, naming)
  {
    var out := Entered(agg, row, naming(row.stack), functionOf(row.stack));
    forall n, f | n in out ensures f in out[n].functions <==> UsesFunction(rows + [row], functionOf, naming, n, f) {
      UsesMore(rows, row, functionOf, naming, n, f);
      if n !in agg {
        UnusedNameHasNoFunction(rows, functionOf, naming, n, f);
      }
    }
  }

  /** The accumulation loop of `functions_report` (`naming` is the function name)
      and of `modules_report` (`naming` is its module). */
  method AggregateRows(rows: seq<Row>, functionOf: Naming, naming: Naming) returns (agg: map<string, Aggregate>)
    ensures Reports(agg, rows, naming) && ListsFunctions(agg, rows, functionOf, naming)
  {
    agg := map[];
    var n := 0;
    while n < |rows|
      invariant 0 <= n <= |rows|
      invariant Reports(agg, rows[..n], naming) && ListsFunctions(agg, rows[..n], functionOf, naming)
    {
      var row := rows[n];
      EnteredReports(agg, rows[..n], naming, row, functionOf(row.stack));
      EnteredLists(agg, rows[..n], functionOf, naming, row);
      assert rows[..n + 1] == rows[..n] + [row];
      agg := Entered(agg, row, naming(row.stack), functionOf(row.stack));
      n := n + 1;
    }
    assert rows[..n] == rows;
  }

  /** A report's entries add up to the stack total the report also shows, when
      that total does not saturate. */
  lemma ReportAddsUp(agg: map<string, Aggregate>, rows: seq<Row>, naming: Naming)
    requires Reports(agg, rows, naming) && LiveOf(rows) <= U64_MAX
    ensures Sum(agg.Keys, n => if n in agg then agg[n].liveBytes else 0) == LiveOf(rows)
  {
    GroupingConserves(rows, naming, agg.Keys);
    forall n | n in agg ensures agg[n].liveBytes == LiveNamed(rows, naming, n) {
      LiveNamedBounded(rows, naming, n);
    }
    SumSame(agg.Keys, n => LiveNamed(rows, naming, n), n => if n in agg then agg[n].liveBytes else 0);
  }

  // ---- The reports and the pointer map ------------------------------------------------

  function WeightAt(a: map<Ptr, Meta>, ptr: Ptr): nat {
    if ptr in a then a[ptr].weight else 0
  }

  /** Summing stack by stack counts every tracked pointer once. */
  lemma {:induction false} StacksPartition(a: map<Ptr, Meta>, keys: set<Stack>)
    requires forall ptr :: ptr in a ==> a[ptr].stack in keys
    ensures Sum(keys, k => LiveBytes(a, k)) == Sum(a.Keys, ptr => WeightAt(a, ptr))
    decreases |a|
  {
    if a == map[] {
      SumZero(keys, k => LiveBytes(a, k));
    } else {
      var ptr :| ptr in a;
      var b := a - {ptr};
      assert b.Keys == a.Keys - {ptr} && |b| == |b.Keys| && |a| == |a.Keys|;
      StacksPartition(b, keys);
      forall k ensures LiveBytes(a, k) == LiveBytes(b, k) + WeightOn(a, k, ptr) {
        SumsWithout(a, ptr, k);
      }
      SumBump(keys, k => LiveBytes(b, k), k => LiveBytes(a, k), a[ptr].stack, a[ptr].weight);
      SumTake(a.Keys, q => WeightAt(a, q), ptr);
      SumSame(b.Keys, q => WeightAt(a, q), q => WeightAt(b, q));
    }
  }

  lemma TrackedStackHasEntry(p: Profile, ptr: Ptr)
    requires Agrees(p) && ptr in p.allocations
    ensures p.allocations[ptr].stack in p.stacks
  {
    var k := p.allocations[ptr].stack;
    assert EntryAgrees(p, k);
    SumAtLeast(p.allocations.Keys, q => CountOn(p.allocations, k, q), ptr);
  }

  /** In a profile whose two maps agree, the stack rows, and so every report
      made from them, account for exactly the tracked blocks. */
  lemma RowsCoverTracked(p: Profile, rows: seq<Row>)
    requires Agrees(p) && RowsOf(rows, p.stacks, p.stacks.Keys)
    ensures LiveOf(rows) == Sum(p.allocations.Keys, ptr => WeightAt(p.allocations, ptr))
  {
    forall ptr | ptr in p.allocations ensures p.allocations[ptr].stack in p.stacks.Keys {
      TrackedStackHasEntry(p, ptr);
    }
    forall k | k in p.stacks.Keys ensures LiveEntry(p.stacks, k) == LiveBytes(p.allocations, k) {
      assert EntryAgrees(p, k);
    }
    SumSame(p.stacks.Keys, k => LiveEntry(p.stacks, k), k => LiveBytes(p.allocations, k));
    StacksPartition(p.allocations, p.stacks.Keys);
  }
}
