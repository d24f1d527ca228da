/** Newest-first paging over a table that can only be read in table order
    (crates/backend/src/handlers.rs, `admin_list_api_behavior_events`).  `table`
    is the sequence of rows the fixed filter selects. */
module ReversePaging {
  import opened Basics

  datatype Row = Row(id: nat, occurredAt: int)

  datatype Page = Page(events: seq<Row>, hasMore: bool)

  /** The effective page size: at most 500, or 2000 for one date; a missing or
      zero limit means 100, or 2000. */
  function EffectiveLimit(limit: Option<nat>, dated: bool): (l: nat)
    ensures limit.None? || limit.value == 0 ==> l == if dated then 2000 else 100
    ensures limit.Some? && limit.value > 0 ==> l == Min(limit.value, if dated then 2000 else 500)
  {
    var positive := if limit.Some? && limit.value > 0 then limit else None;
    if dated then Min(positive.GetOr(2000), 2000) else Min(positive.GetOr(100), 500)
  }

  // ---- Sorting a page --------------------------------------------------------------

  function InsertNewest(r: Row, s: seq<Row>): seq<Row> {
    if s == [] || r.occurredAt >= s[0].occurredAt then [r] + s else [s[0]] + InsertNewest(r, s[1..])
  }

  /** A stable sort by decreasing time. */
  function NewestFirst(s: seq<Row>): seq<Row> {
    if s == [] then [] else InsertNewest(s[0], NewestFirst(s[1..]))
  }

  ghost predicate Descending(s: seq<Row>) {
    forall i, j :: 0 <= i < j < |s| ==> s[i].occurredAt >= s[j].occurredAt
  }

  lemma {:induction false} InsertPermutes(r: Row, s: seq<Row>)
    ensures multiset(InsertNewest(r, s)) == multiset{r} + multiset(s)
    ensures forall x :: x in InsertNewest(r, s) ==> x == r || x in s
  {
    if s != [] {
      assert s == [s[0]] + s[1..];
      InsertPermutes(r, s[1..]);
    }
  }

  lemma {:induction false} InsertDescending(r: Row, s: seq<Row>)
    requires Descending(s)
    ensures Descending(InsertNewest(r, s))
  {
    if s != [] && r.occurredAt < s[0].occurredAt {
      InsertDescending(r, s[1..]);
      InsertPermutes(r, s[1..]);
      var rest := InsertNewest(r, s[1..]);
      forall i | 0 <= i < |rest| ensures s[0].occurredAt >= rest[i].occurredAt {
        assert rest[i] in rest;
        if rest[i] != r {
          var k :| 0 <= k < |s[1..]| && s[1..][k] == rest[i];
          assert s[k + 1] == rest[i];
        }
      }
    }
  }

  lemma {:induction false} NewestFirstSorts(s: seq<Row>)
    ensures Descending(NewestFirst(s)) && multiset(NewestFirst(s)) == multiset(s)
    ensures |NewestFirst(s)| == |s|
  {
    if s != [] {
      NewestFirstSorts(s[1..]);
      InsertDescending(s[0], NewestFirst(s[1..]));
      InsertPermutes(s[0], NewestFirst(s[1..]));
      assert s == [s[0]] + s[1..];
    }
    assert |multiset(NewestFirst(s))| == |NewestFirst(s)| && |multiset(s)| == |s|;
  }

  /** The rows of one moment, in their order. */
  function AtTime(s: seq<Row>, t: int): seq<Row> {
    if s == [] then [] else (if s[0].occurredAt == t then [s[0]] else []) + AtTime(s[1..], t)
  }

  lemma AtTimeCons(x: Row, rest: seq<Row>, t: int)
    ensures AtTime([x] + rest, t) == if x.occurredAt == t then [x] + AtTime(rest, t) else AtTime(rest, t)
  {
    assert ([x] + rest)[1..] == rest;
  }

  lemma {:induction false} InsertIsStable(r: Row, s: seq<Row>, t: int)
    ensures AtTime(InsertNewest(r, s), t) == if r.occurredAt == t then [r] + AtTime(s, t) else AtTime(s, t)
  {
    AtTimeCons(r, s, t);
    if s != [] && r.occurredAt < s[0].occurredAt {
      InsertIsStable(r, s[1..], t);
      AtTimeCons(s[0], InsertNewest(r, s[1..]), t);
    }
  }

  /** Rows of the same moment keep their table order. */
  lemma {:induction false} SortIsStable(s: seq<Row>, t: int)
    ensures AtTime(NewestFirst(s), t) == AtTime(s, t)
  {
    if s != [] {
      SortIsStable(s[1..], t);
      InsertIsStable(s[0], NewestFirst(s[1..]), t);
    }
  }

  // ---- One page -----------------------------------------------------------------------

  /** The response to one request. */
  function Fetch(table: seq<Row>, offset: nat, requested: Option<nat>, dated: bool): Page {
    var total := |table|;
    var limit := EffectiveLimit(requested, dated);
    if total == 0 || offset >= total then Page([], false)
    else
      var fetchCount := Min(total - offset, limit);
      var reverseOffset := Max(total - (offset + fetchCount), 0);
      var events := NewestFirst(table[reverseOffset..reverseOffset + fetchCount]);
      Page(events, offset + |events| < total)
  }

  /** The rows between two distances from the end of the table. */
  function Slice(table: seq<Row>, from: nat, to: nat): seq<Row>
    requires to <= from <= |table|
  {
    table[|table| - from..|table| - to]
  }

  type PageSize = l: nat | l >= 1 witness 1

  function NextOffset(table: seq<Row>, offset: nat, size: PageSize): nat
    requires offset < |table|
  {
    offset + Min(|table| - offset, size)
  }

  function PageRows(table: seq<Row>, offset: nat, size: PageSize): seq<Row>
    requires offset < |table|
  {
    NewestFirst(Slice(table, NextOffset(table, offset, size), offset))
  }

  /** The page at `offset` holds the rows just before those of the pages it
      follows, newest first, and announces more exactly when rows are left. */
  ghost predicate IsPage(table: seq<Row>, offset: nat, p: Page) {
    if offset >= |table| then p == Page([], false)
    else
      var next := offset + |p.events|;
      && offset < next <= |table|
      && multiset(p.events) == multiset(Slice(table, next, offset))
      && Descending(p.events)
      && (p.hasMore <==> next < |table|)
  }

  /** A page is the slice before the offset, sorted. */
  lemma FetchRows(table: seq<Row>, offset: nat, requested: Option<nat>, dated: bool)
    requires offset < |table|
    ensures var p := Fetch(table, offset, requested, dated);
            var next := NextOffset(table, offset, EffectiveLimit(requested, dated));
            && p.events == PageRows(table, offset, EffectiveLimit(requested, dated))
            && offset + |p.events| == next
            && (p.hasMore <==> next < |table|)
  {
    NewestFirstSorts(Slice(table, NextOffset(table, offset, EffectiveLimit(requested, dated)), offset));
  }

  lemma PageIsSlice(table: seq<Row>, offset: nat, size: PageSize)
    requires offset < |table|
    ensures var page := PageRows(table, offset, size);
            Descending(page) && multiset(page) == multiset(Slice(table, NextOffset(table, offset, size), offset))
  {
    NewestFirstSorts(Slice(table, NextOffset(table, offset, size), offset));
  }

  lemma FetchIsPage(table: seq<Row>, offset: nat, requested: Option<nat>, dated: bool)
    ensures IsPage(table, offset, Fetch(table, offset, requested, dated))
    ensures offset < |table| ==>
              |Fetch(table, offset, requested, dated).events| == Min(|table| - offset, EffectiveLimit(requested, dated))
  {
    if offset < |table| {
      FetchRows(table, offset, requested, dated);
      PageIsSlice(table, offset, EffectiveLimit(requested, dated));
    }
  }

  // ---- Walking all pages ----------------------------------------------------------------

  ghost predicate InTimeOrder(table: seq<Row>) {
    forall i, j :: 0 <= i < j < |table| ==> table[i].occurredAt <= table[j].occurredAt
  }

  lemma InSlice(table: seq<Row>, from: nat, to: nat, rows: seq<Row>, i: nat) returns (k: nat)
    requires to <= from <= |table| && multiset(rows) == multiset(Slice(table, from, to)) && i < |rows|
    ensures |table| - from <= k < |table| - to && table[k] == rows[i]
  {
    assert rows[i] in multiset(rows);
    var s := Slice(table, from, to);
    assert rows[i] in s;
    var l :| 0 <= l < |s| && s[l] == rows[i];
    k := |table| - from + l;
  }

  lemma AppendDescending(a: seq<Row>, b: seq<Row>)
    requires Descending(a) && Descending(b)
    requires forall i, j :: 0 <= i < |a| && 0 <= j < |b| ==> a[i].occurredAt >= b[j].occurredAt
    ensures Descending(a + b)
  {
  }

  /** The pages from `offset` on, one after the other; `sizes` are the effective
      limits of the requests. */
  function Walked(table: seq<Row>, offset: nat, sizes: nat -> PageSize, n: nat): seq<Row>
    decreases |table| - offset
  {
    if offset >= |table| then []
    else PageRows(table, offset, sizes(n)) + Walked(table, NextOffset(table, offset, sizes(n)), sizes, n + 1)
  }

  function Sizes(limits: nat -> Option<nat>, dated: bool): nat -> PageSize {
    n => EffectiveLimit(limits(n), dated)
  }

  /** The rows collected, and those of the pages still to come, are the whole walk. */
  ghost predicate StillToCome(table: seq<Row>, rows: seq<Row>, offset: nat, sizes: nat -> PageSize, n: nat) {
    rows + Walked(table, offset, sizes, n) == Walked(table, 0, sizes, 0)
  }

  lemma PageComes(table: seq<Row>, rows: seq<Row>, offset: nat, sizes: nat -> PageSize, n: nat)
    requires offset < |table| && StillToCome(table, rows, offset, sizes, n)
    ensures StillToCome(table, rows + PageRows(table, offset, sizes(n)), NextOffset(table, offset, sizes(n)), sizes, n + 1)
  {
    var page, rest := PageRows(table, offset, sizes(n)), Walked(table, NextOffset(table, offset, sizes(n)), sizes, n + 1);
    assert rows + page + rest == rows + (page + rest);
  }

  /** One request of the walk. */
  lemma RequestStep(table: seq<Row>, rows: seq<Row>, offset: nat, requested: Option<nat>, dated: bool,
                    sizes: nat -> PageSize, n: nat, page: Page)
    requires offset <= |table| && StillToCome(table, rows, offset, sizes, n)
    requires page == Fetch(table, offset, requested, dated) && sizes(n) == EffectiveLimit(requested, dated)
    ensures StillToCome(table, rows + page.events, offset + |page.events|, sizes, n + 1)
            && offset + |page.events| <= |table|
            && (if page.hasMore then page.events != [] else offset + |page.events| == |table|)
  {
    if offset < |table| {
      FetchRows(table, offset, requested, dated);
      PageComes(table, rows, offset, sizes, n);
    } else {
      assert rows + [] == rows;
    }
  }

  // ---- When the walk is newest first ------------------------------------------------------

  /** The rows less than `far` from the end but not less than `near` are no
      older than those further from the end. */
  ghost predicate OrderedAcross(table: seq<Row>, near: nat, far: nat) {
    forall i, j :: 0 <= i < |table| - far <= j < |table| - near ==> table[i].occurredAt <= table[j].occurredAt
  }

  /** A page ends at `b`, the one at `offset` or a later one. */
  ghost predicate EndsPage(table: seq<Row>, offset: nat, sizes: nat -> PageSize, n: nat, b: nat)
    decreases |table| - offset
  {
    offset < |table| &&
    var next := NextOffset(table, offset, sizes(n));
    b == next || EndsPage(table, next, sizes, n + 1, b)
  }

  lemma {:induction false} EndsLater(table: seq<Row>, offset: nat, sizes: nat -> PageSize, n: nat, b: nat)
    requires EndsPage(table, offset, sizes, n, b)
    ensures b >= NextOffset(table, offset, sizes(n))
    decreases |table| - offset
  {
    var next := NextOffset(table, offset, sizes(n));
    if b != next {
      EndsLater(table, next, sizes, n + 1, b);
    }
  }

  lemma JoinSlices(table: seq<Row>, offset: nat, next: nat, page: seq<Row>, rest: seq<Row>)
    requires offset <= next <= |table|
    requires multiset(page) == multiset(Slice(table, next, offset)) && multiset(rest) == multiset(Slice(table, |table|, next))
    ensures multiset(page + rest) == multiset(Slice(table, |table|, offset))
  {
    assert Slice(table, |table|, offset) == Slice(table, |table|, next) + Slice(table, next, offset);
  }

  /** What is walked from an offset is the table up to there. */
  lemma {:induction false} WalkedRows(table: seq<Row>, offset: nat, sizes: nat -> PageSize, n: nat)
    requires offset <= |table|
    ensures multiset(Walked(table, offset, sizes, n)) == multiset(Slice(table, |table|, offset))
    decreases |table| - offset
  {
    if offset < |table| {
      var next := NextOffset(table, offset, sizes(n));
      PageIsSlice(table, offset, sizes(n));
      WalkedRows(table, next, sizes, n + 1);
      JoinSlices(table, offset, next, PageRows(table, offset, sizes(n)), Walked(table, next, sizes, n + 1));
    }
  }

  lemma SliceHas(table: seq<Row>, from: nat, to: nat, rows: seq<Row>, k: nat) returns (i: nat)
    requires to <= from <= |table| && multiset(rows) == multiset(Slice(table, from, to))
    requires |table| - from <= k < |table| - to
    ensures i < |rows| && rows[i] == table[k]
  {
    var s := Slice(table, from, to);
    assert s[k - (|table| - from)] == table[k];
    assert table[k] in multiset(rows);
    i :| 0 <= i < |rows| && rows[i] == table[k];
  }

  ghost predicate NoneNewer(a: seq<Row>, b: seq<Row>) {
    forall i, j :: 0 <= i < |a| && 0 <= j < |b| ==> a[i].occurredAt >= b[j].occurredAt
  }

  lemma AppendDescendsIff(a: seq<Row>, b: seq<Row>)
    requires Descending(a)
    ensures Descending(a + b) <==> Descending(b) && NoneNewer(a, b)
  {
    var r := a + b;
    if Descending(r) {
      forall i, j | 0 <= i < j < |b| ensures b[i].occurredAt >= b[j].occurredAt {
        assert r[|a| + i].occurredAt >= r[|a| + j].occurredAt;
      }
      forall i, j | 0 <= i < |a| && 0 <= j < |b| ensures a[i].occurredAt >= b[j].occurredAt {
        assert r[i].occurredAt >= r[|a| + j].occurredAt;
      }
    } else if Descending(b) && NoneNewer(a, b) {
      AppendDescending(a, b);
    }
  }

  /** A page is in order with what follows it exactly if the table is. */
  lemma AcrossPages(table: seq<Row>, offset: nat, next: nat, page: seq<Row>, rest: seq<Row>)
    requires offset <= next <= |table|
    requires multiset(page) == multiset(Slice(table, next, offset)) && multiset(rest) == multiset(Slice(table, |table|, next))
    ensures NoneNewer(page, rest) <==> OrderedAcross(table, offset, next)
  {
    if OrderedAcross(table, offset, next) {
      forall i, j | 0 <= i < |page| && 0 <= j < |rest| ensures page[i].occurredAt >= rest[j].occurredAt {
        var k := InSlice(table, next, offset, page, i);
        var l := InSlice(table, |table|, next, rest, j);
      }
    }
    if NoneNewer(page, rest) {
      forall i, j | 0 <= i < |table| - next <= j < |table| - offset ensures table[i].occurredAt <= table[j].occurredAt {
        var k := SliceHas(table, next, offset, page, j);
        var l := SliceHas(table, |table|, next, rest, i);
        assert page[k].occurredAt >= rest[l].occurredAt;
      }
    }
  }

  ghost predicate OrderedAtPages(table: seq<Row>, offset: nat, sizes: nat -> PageSize, n: nat) {
    forall b :: EndsPage(table, offset, sizes, n, b) ==> OrderedAcross(table, offset, b)
  }

  lemma PagesStep(table: seq<Row>, offset: nat, sizes: nat -> PageSize, n: nat)
    requires offset < |table|
    ensures var next := NextOffset(table, offset, sizes(n));
            OrderedAtPages(table, offset, sizes, n) <==>
              OrderedAcross(table, offset, next) && OrderedAtPages(table, next, sizes, n + 1)
  {
    var next := NextOffset(table, offset, sizes(n));
    assert EndsPage(table, offset, sizes, n, next);
    if OrderedAtPages(table, offset, sizes, n) {
      forall b | EndsPage(table, next, sizes, n + 1, b) ensures OrderedAcross(table, next, b) {
        assert EndsPage(table, offset, sizes, n, b);
        assert OrderedAcross(table, offset, b);
      }
    }
    if OrderedAcross(table, offset, next) && OrderedAtPages(table, next, sizes, n + 1) {
      forall b | EndsPage(table, offset, sizes, n, b) ensures OrderedAcross(table, offset, b) {
        if b != next {
          EndsLater(table, next, sizes, n + 1, b);
          assert OrderedAcross(table, next, b);
        }
      }
    }
  }

  /** Exactly when the pages are newest first as a whole, whatever limits the
      requests ask for: no row is older than a row on a later page. */
  lemma {:induction false} WalkDescends(table: seq<Row>, offset: nat, sizes: nat -> PageSize, n: nat)
    requires offset <= |table|
    ensures Descending(Walked(table, offset, sizes, n)) <==> OrderedAtPages(table, offset, sizes, n)
    decreases |table| - offset
  {
    if offset < |table| {
      var next := NextOffset(table, offset, sizes(n));
      var page, rest := PageRows(table, offset, sizes(n)), Walked(table, next, sizes, n + 1);
      PageIsSlice(table, offset, sizes(n));
      WalkDescends(table, next, sizes, n + 1);
      WalkedRows(table, next, sizes, n + 1);
      AppendDescendsIff(page, rest);
      AcrossPages(table, offset, next, page, rest);
      PagesStep(table, offset, sizes, n);
    }
  }

  lemma WalkEnds(table: seq<Row>, rows: seq<Row>, sizes: nat -> PageSize, n: nat)
    requires StillToCome(table, rows, |table|, sizes, n)
    ensures rows == Walked(table, 0, sizes, 0) && multiset(rows) == multiset(table)
    ensures Descending(rows) <==> OrderedAtPages(table, 0, sizes, 0)
    ensures InTimeOrder(table) ==> Descending(rows)
  {
    assert rows + [] == rows;
    WalkedRows(table, 0, sizes, 0);
    assert Slice(table, |table|, 0) == table;
    WalkDescends(table, 0, sizes, 0);
  }

  /** Reverse paging tiles a fixed table.  A client asks for page after page,
      adding the returned length to its offset, until no more are announced;
      request `n` may ask for its own limit.  The walk ends, the pages together
      are a permutation of the table, and they are newest first as a whole
      exactly when no row is older than a row on a later page; rows stored in
      time order are enough. */
  method WalkPages(table: seq<Row>, limits: nat -> Option<nat>, dated: bool) returns (rows: seq<Row>, requests: nat)
    ensures rows == Walked(table, 0, Sizes(limits, dated), 0)
    ensures multiset(rows) == multiset(table)
    ensures Descending(rows) <==> OrderedAtPages(table, 0, Sizes(limits, dated), 0)
    ensures InTimeOrder(table) ==> Descending(rows)
    ensures requests <= |table| + 1
  {
    rows, requests := [], 0;
    var offset, more := 0, true;
    ghost var sizes := Sizes(limits, dated);
    assert [] + Walked(table, 0, sizes, 0) == Walked(table, 0, sizes, 0);
    while more
      invariant offset <= |table| && requests <= offset + 1
      invariant StillToCome(table, rows, offset, sizes, requests)
      invariant more ==> requests <= offset
      invariant !more ==> offset == |table|
      decreases |table| - offset, more
    {
      var page := Fetch(table, offset, limits(requests), dated);
      RequestStep(table, rows, offset, limits(requests), dated, sizes, requests, page);
      rows, offset, requests, more := rows + page.events, offset + |page.events|, requests + 1, page.hasMore;
    }
    WalkEnds(table, rows, sizes, requests);
  }

  // ---- Pages of one size --------------------------------------------------------------------

  /** Which page of `l` rows row `i` is on. */
  function PageOf(table: seq<Row>, i: nat, l: PageSize): nat
    requires i < |table|
  {
    (|table| - 1 - i) / l
  }

  /** Rows on different pages, from page `k` on, are in time order. */
  ghost predicate OrderedFromPage(table: seq<Row>, k: nat, l: PageSize) {
    forall i, j :: 0 <= i < j < |table| && k <= PageOf(table, j, l) < PageOf(table, i, l)
      ==> table[i].occurredAt <= table[j].occurredAt
  }

  lemma OnPage(table: seq<Row>, i: nat, l: PageSize, k: nat)
    requires i < |table|
    ensures PageOf(table, i, l) >= k <==> |table| - 1 - i >= k * l
  {
    var x := |table| - 1 - i;
    var q := x / l;
    assert x == q * l + x % l;
    if q >= k {
      TimesGrows(k, q, l);
    } else {
      TimesGrows(q + 1, k, l);
      assert (q + 1) * l == q * l + l;
    }
  }

  lemma PageBorder(table: seq<Row>, k: nat, l: PageSize, near: nat, far: nat)
    requires near == k * l < |table| && far == NextOffset(table, near, l)
    ensures OrderedFromPage(table, k, l) <==> OrderedAcross(table, near, far) && OrderedFromPage(table, k + 1, l)
  {
    assert (k + 1) * l == k * l + l;
    forall i | 0 <= i < |table|
      ensures PageOf(table, i, l) >= k <==> |table| - 1 - i >= near
      ensures PageOf(table, i, l) >= k + 1 <==> i < |table| - far
    {
      OnPage(table, i, l, k);
      OnPage(table, i, l, k + 1);
    }
    if OrderedFromPage(table, k, l) {
      forall i, j | 0 <= i < |table| - far <= j < |table| - near ensures table[i].occurredAt <= table[j].occurredAt {
        assert k <= PageOf(table, j, l) < PageOf(table, i, l);
      }
    }
    if OrderedAcross(table, near, far) && OrderedFromPage(table, k + 1, l) {
      forall i, j | 0 <= i < j < |table| && k <= PageOf(table, j, l) < PageOf(table, i, l)
        ensures table[i].occurredAt <= table[j].occurredAt
      {
        if PageOf(table, j, l) == k {
          assert 0 <= i < |table| - far <= j < |table| - near;
        }
      }
    }
  }

  lemma {:induction false} EqualPages(table: seq<Row>, k: nat, l: PageSize, offset: nat, n: nat)
    requires offset == Min(k * l, |table|)
    ensures OrderedAtPages(table, offset, _ => l, n) <==> OrderedFromPage(table, k, l)
    decreases |table| - offset
  {
    if offset < |table| {
      assert (k + 1) * l == k * l + l;
      PagesStep(table, offset, _ => l, n);
      PageBorder(table, k, l, offset, NextOffset(table, offset, l));
      EqualPages(table, k + 1, l, NextOffset(table, offset, l), n + 1);
    } else {
      forall i | 0 <= i < |table| ensures PageOf(table, i, l) < k {
        OnPage(table, i, l, k);
      }
    }
  }

  /** With one page size the pages are newest first as a whole if and only if
      rows on different pages are in time order. */
  lemma PagesDescend(table: seq<Row>, l: PageSize)
    ensures Descending(Walked(table, 0, _ => l, 0)) <==>
              forall i, j :: 0 <= i < j < |table| && PageOf(table, i, l) != PageOf(table, j, l)
                ==> table[i].occurredAt <= table[j].occurredAt
  {
    WalkDescends(table, 0, _ => l, 0);
    EqualPages(table, 0, l, 0, 0);
    forall i, j | 0 <= i < j < |table| ensures PageOf(table, j, l) <= PageOf(table, i, l) {
      OnPage(table, j, l, PageOf(table, j, l));
      OnPage(table, i, l, PageOf(table, j, l));
    }
  }

  /** With pages of one row, that is time order. */
  lemma TimeOrderNeeded(table: seq<Row>)
    ensures Descending(Walked(table, 0, _ => 1, 0)) <==> InTimeOrder(table)
  {
    PagesDescend(table, 1);
  }
}
