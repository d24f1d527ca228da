/** The least-recently-used cache of embedding models
    (crates/embedding/src/cache.rs). */
module ModelCache {
  import opened Basics

  /** The fields of `SmallModelCache`. */
  datatype Cache<K, V> = Cache(maxEntries: nat, order: seq<K>, values: map<K, V>)

  // ---- Specification ----------------------------------------------------------------

  /** `s` without the first occurrence of `x`. */
  function WithoutFirst<K(==)>(s: seq<K>, x: K): seq<K> {
    if s == [] then [] else if s[0] == x then s[1..] else [s[0]] + WithoutFirst(s[1..], x)
  }

  lemma {:induction false} WithoutFirstAt<K>(s: seq<K>, x: K, pos: nat)
    requires pos <= |s| && x !in s[..pos] && (pos < |s| ==> s[pos] == x)
    ensures WithoutFirst(s, x) == if pos < |s| then s[..pos] + s[pos + 1..] else s
  {
    if pos > 0 {
      assert s[..pos][0] == s[0] && s[1..][..pos - 1] == s[..pos][1..];
      WithoutFirstAt(s[1..], x, pos - 1);
      if pos < |s| {
        assert [s[0]] + (s[1..][..pos - 1] + s[1..][pos..]) == s[..pos] + s[pos + 1..];
      }
    }
  }

  function Touched<K(==)>(order: seq<K>, key: K): seq<K> {
    WithoutFirst(order, key) + [key]
  }

  /** Pop keys until one of them had a value. */
  function Evicted<K(==), V>(c: Cache<K, V>): Cache<K, V>
    decreases |c.order|
  {
    if c.order == [] then c
    else if c.order[0] in c.values then Cache(c.maxEntries, c.order[1..], c.values - {c.order[0]})
    else Evicted(c.(order := c.order[1..]))
  }

  /** One `get_or_try_insert_mut`; `init` is what the initialiser would return,
      `None` for its error.  On a full cache a miss evicts before it initialises. */
  function Accessed<K(==), V>(c: Cache<K, V>, key: K, init: Option<V>): (Cache<K, V>, Option<V>) {
    if key in c.values then (c.(order := Touched(c.order, key)), Some(c.values[key]))
    else
      var d := if |c.values| >= c.maxEntries then Evicted(c) else c;
      match init
      case None => (d, None)
      case Some(v) => (Cache(d.maxEntries, d.order + [key], d.values[key := v]), Some(v))
  }

  function Empty<K, V>(maxEntries: nat): Cache<K, V> {
    Cache(Max(maxEntries, 1), [], map[])
  }

  // ---- The cache object -------------------------------------------------------------

  class SmallModelCache<K(==), V> {
    const maxEntries: nat
    var order: seq<K>
    var values: map<K, V>

    ghost function State(): Cache<K, V>
      reads this
    {
      Cache(maxEntries, order, values)
    }

    constructor (maxEntries: nat)
      ensures State() == Empty(maxEntries)
    {
      this.maxEntries := Max(maxEntries, 1);
      order, values := [], map[];
    }

    method GetOrTryInsertMut(key: K, init: Option<V>) returns (result: Option<V>)
      modifies this
      ensures (State(), result) == Accessed(old(State()), key, init)
    {
      if key in values {
        Touch(key);
        return Some(values[key]);
      }
      if |values| >= maxEntries {
        EvictLru();
      }
      if init.None? {
        return None;
      }
      values := values[key := init.value];
      order := order + [key];
      result := Some(values[key]);
    }

    method Touch(key: K)
      modifies this`order
      ensures order == Touched(old(order), key)
    {
      var pos := 0;
      while pos < |order| && order[pos] != key
        invariant 0 <= pos <= |order|
        invariant key !in order[..pos]
      {
        assert order[..pos + 1] == order[..pos] + [order[pos]];
        pos := pos + 1;
      }
      WithoutFirstAt(order, key, pos);
      if pos < |order| {
        order := order[..pos] + order[pos + 1..];
      }
      order := order + [key];
    }

    method EvictLru()
      modifies this
      ensures State() == Evicted(old(State()))
    {
      while order != []
        invariant Evicted(State()) == Evicted(old(State()))
        invariant values == old(values)
        decreases |order|
      {
        var oldest := order[0];
        if oldest in values {
          order, values := order[1..], values - {oldest};
          return;
        }
        order := order[1..];
      }
    }
  }

  // ---- Agreement of deque and map ----------------------------------------------------

  ghost predicate Distinct<K(!new)>(s: seq<K>) {
    forall i, j :: 0 <= i < j < |s| ==> s[i] != s[j]
  }

  /** The deque lists the keys of the map, once each, within the bound. */
  ghost predicate Agrees<K(!new), V>(c: Cache<K, V>) {
    && Distinct(c.order)
    && (forall k :: k in c.order <==> k in c.values)
    && |c.order| <= c.maxEntries && c.maxEntries >= 1
  }

  lemma {:induction false} WithoutFirstDistinct<K(!new)>(s: seq<K>, x: K)
    requires Distinct(s)
    ensures Distinct(WithoutFirst(s, x))
    ensures forall k :: k in WithoutFirst(s, x) <==> k in s && k != x
    ensures |WithoutFirst(s, x)| == if x in s then |s| - 1 else |s|
    ensures x !in s ==> WithoutFirst(s, x) == s
  {
    if s != [] {
      assert s == [s[0]] + s[1..];
      assert forall k :: k in s[1..] ==> k != s[0];
      if s[0] != x {
        WithoutFirstDistinct(s[1..], x);
        var t := WithoutFirst(s[1..], x);
        forall j | 0 <= j < |t| ensures t[j] != s[0] {
          assert t[j] in t;
        }
      }
    }
  }

  lemma {:induction false} DistinctSize<K(!new), V>(s: seq<K>, m: map<K, V>)
    requires Distinct(s) && forall k :: k in s <==> k in m
    ensures |m| == |s|
  {
    SetSize(s, m.Keys);
    assert |m| == |m.Keys|;
  }

  lemma {:induction false} SetSize<K(!new)>(s: seq<K>, keys: set<K>)
    requires Distinct(s) && forall k :: k in s <==> k in keys
    ensures |keys| == |s|
  {
    if s == [] {
      assert keys == {};
    } else {
      assert s == [s[0]] + s[1..];
      SetSize(s[1..], keys - {s[0]});
    }
  }

  lemma EvictionAgrees<K(!new), V>(c: Cache<K, V>)
    requires Agrees(c) && c.order != []
    ensures Evicted(c) == Cache(c.maxEntries, c.order[1..], c.values - {c.order[0]}) && Agrees(Evicted(c))
  {
    assert c.order == [c.order[0]] + c.order[1..];
  }

  lemma InsertionAgrees<K(!new), V>(c: Cache<K, V>, key: K, v: V)
    requires Agrees(c) && key !in c.values && |c.order| < c.maxEntries
    ensures Agrees(Cache(c.maxEntries, c.order + [key], c.values[key := v]))
  {
  }

  /** Every access, whether its initialiser succeeds or fails, keeps the deque
      and the map in agreement and within the bound. */
  lemma AccessKeepsAgreement<K(!new), V>(c: Cache<K, V>, key: K, init: Option<V>)
    requires Agrees(c)
    ensures Agrees(Accessed(c, key, init).0)
    ensures Accessed(c, key, init).1.None? <==> key !in c.values && init.None?
    ensures Accessed(c, key, init).1.Some? ==>
              key in Accessed(c, key, init).0.values && Accessed(c, key, init).0.values[key] == Accessed(c, key, init).1.value
  {
    if key in c.values {
      WithoutFirstDistinct(c.order, key);
    } else {
      DistinctSize(c.order, c.values);
      var d := if |c.values| >= c.maxEntries then Evicted(c) else c;
      if |c.values| >= c.maxEntries {
        EvictionAgrees(c);
      }
      if init.Some? {
        InsertionAgrees(d, key, init.value);
      }
    }
  }

  // ---- Refinement of "the last k distinct keys" ---------------------------------------

  /** The keys of a trace in order of most recent use. */
  function Recent<K(==, !new)>(trace: seq<K>): seq<K> {
    if trace == [] then [] else Touched(Recent(trace[..|trace| - 1]), trace[|trace| - 1])
  }

  function LastK<K(!new)>(s: seq<K>, k: nat): seq<K> {
    s[|s| - Min(k, |s|)..]
  }

  /** Index of the last use of `x`. */
  function LastUse<K(==, !new)>(trace: seq<K>, x: K): int {
    if trace == [] then -1
    else if trace[|trace| - 1] == x then |trace| - 1
    else LastUse(trace[..|trace| - 1], x)
  }

  lemma {:induction false} LastUseMeans<K(!new)>(trace: seq<K>, x: K)
    ensures -1 <= LastUse(trace, x) < |trace|
    ensures LastUse(trace, x) >= 0 <==> x in trace
    ensures LastUse(trace, x) >= 0 ==> trace[LastUse(trace, x)] == x
    ensures forall i :: LastUse(trace, x) < i < |trace| ==> trace[i] != x
  {
    if trace != [] {
      var init := trace[..|trace| - 1];
      assert trace == init + [trace[|trace| - 1]];
      if trace[|trace| - 1] != x {
        LastUseMeans(init, x);
        forall i | LastUse(trace, x) < i < |trace| ensures trace[i] != x {
          if i < |init| {
            assert init[i] == trace[i];
          }
        }
      }
    }
  }

  ghost predicate ByLastUse<K(!new)>(s: seq<K>, trace: seq<K>) {
    forall i, j :: 0 <= i < j < |s| ==> LastUse(trace, s[i]) < LastUse(trace, s[j])
  }

  lemma {:induction false} WithoutFirstOrder<K(!new)>(s: seq<K>, x: K, trace: seq<K>)
    requires Distinct(s) && ByLastUse(s, trace)
    ensures ByLastUse(WithoutFirst(s, x), trace)
  {
    if s != [] && s[0] != x {
      WithoutFirstOrder(s[1..], x, trace);
      WithoutFirstDistinct(s[1..], x);
      var t := WithoutFirst(s[1..], x);
      forall j | 0 <= j < |t| ensures LastUse(trace, s[0]) < LastUse(trace, t[j]) {
        assert t[j] in t;
        var i :| 0 <= i < |s[1..]| && s[1..][i] == t[j];
        assert s[i + 1] == t[j];
      }
    }
  }

  /** `Recent` holds exactly the keys used, once each, by increasing last use. */
  lemma {:induction false} RecentMeans<K(!new)>(trace: seq<K>)
    ensures Distinct(Recent(trace))
    ensures forall x :: x in Recent(trace) <==> x in trace
    ensures ByLastUse(Recent(trace), trace)
  {
    if trace != [] {
      var init, last := trace[..|trace| - 1], trace[|trace| - 1];
      assert trace == init + [last];
      RecentMeans(init);
      WithoutFirstDistinct(Recent(init), last);
      WithoutFirstOrder(Recent(init), last, init);
      var kept := WithoutFirst(Recent(init), last);
      forall i | 0 <= i < |kept| ensures LastUse(trace, kept[i]) == LastUse(init, kept[i]) < |trace| - 1 {
        assert kept[i] in kept;
        LastUseMeans(init, kept[i]);
      }
    }
  }

  lemma InTail<K(!new)>(a: seq<K>, x: K)
    requires a != [] && a[0] != x
    ensures x in a <==> x in a[1..]
  {
    assert a == [a[0]] + a[1..];
  }

  lemma {:induction false} WithoutFirstInside<K(!new)>(a: seq<K>, b: seq<K>, x: K)
    requires x in a
    ensures WithoutFirst(a + b, x) == WithoutFirst(a, x) + b
  {
    assert (a + b)[0] == a[0] && (a + b)[1..] == a[1..] + b;
    if a[0] != x {
      InTail(a, x);
      WithoutFirstInside(a[1..], b, x);
      assert [a[0]] + (WithoutFirst(a[1..], x) + b) == [a[0]] + WithoutFirst(a[1..], x) + b;
    }
  }

  lemma {:induction false} WithoutFirstOutside<K(!new)>(a: seq<K>, b: seq<K>, x: K)
    requires x !in a
    ensures WithoutFirst(a + b, x) == a + WithoutFirst(b, x)
  {
    if a == [] {
      assert a + b == b && a + WithoutFirst(b, x) == WithoutFirst(b, x);
    } else {
      assert a[0] != x && (a + b)[0] == a[0] && (a + b)[1..] == a[1..] + b;
      InTail(a, x);
      WithoutFirstOutside(a[1..], b, x);
      assert [a[0]] + (a[1..] + WithoutFirst(b, x)) == a + WithoutFirst(b, x);
    }
  }

  lemma DistinctSplit<K(!new)>(a: seq<K>, b: seq<K>)
    requires Distinct(a + b)
    ensures Distinct(a) && Distinct(b) && forall x :: x in b ==> x !in a
  {
    var r := a + b;
    assert forall i :: 0 <= i < |a| ==> a[i] == r[i];
    assert forall i :: 0 <= i < |b| ==> b[i] == r[|a| + i];
    forall x | x in b ensures x !in a {
      var i :| 0 <= i < |b| && b[i] == x;
      assert r[|a| + i] == x;
    }
  }

  /** `w` is what follows `front` in the recency order; its key is used again. */
  lemma TouchInside<K(!new)>(front: seq<K>, w: seq<K>, key: K)
    requires Distinct(front + w) && key in w
    ensures Touched(front + w, key) == front + Touched(w, key) && |Touched(w, key)| == |w|
  {
    DistinctSplit(front, w);
    WithoutFirstOutside(front, w, key);
    WithoutFirstDistinct(w, key);
  }

  /** A key outside `w` is used: it joins `w` at the end. */
  lemma TouchOutside<K(!new)>(front: seq<K>, w: seq<K>, key: K) returns (rest: seq<K>)
    requires Distinct(front + w) && key !in w
    ensures Touched(front + w, key) == rest + (w + [key])
    ensures |rest| == if key in front then |front| - 1 else |front|
  {
    DistinctSplit(front, w);
    WithoutFirstDistinct(front, key);
    if key in front {
      WithoutFirstInside(front, w, key);
      rest := WithoutFirst(front, key);
    } else {
      WithoutFirstDistinct(front + w, key);
      rest := front;
    }
    assert rest + w + [key] == rest + (w + [key]);
  }

  // ---- The window ---------------------------------------------------------------------

  /** One access; `init` is what the initialiser would return. */
  datatype Access<K, V> = Access(key: K, init: Option<V>)

  function KeysOf<K(!new), V>(trace: seq<Access<K, V>>): seq<K> {
    seq(|trace|, i requires 0 <= i < |trace| => trace[i].key)
  }

  function AccessAll<K(==, !new), V>(c: Cache<K, V>, trace: seq<Access<K, V>>): Cache<K, V> {
    if trace == [] then c
    else Accessed(AccessAll(c, trace[..|trace| - 1]), trace[|trace| - 1].key, trace[|trace| - 1].init).0
  }

  /** The keys of the accesses that return a value, hits and successful misses. */
  function Served<K(==, !new), V>(trace: seq<Access<K, V>>, k: nat): seq<K>
    decreases |trace|, 0
  {
    if trace == [] then []
    else
      var init, a := trace[..|trace| - 1], trace[|trace| - 1];
      if a.key in Window(init, k) || a.init.Some? then Served(init, k) + [a.key] else Served(init, k)
  }

  /** How many keys a cache of capacity `k` holds: a successful miss adds one up
      to the capacity, a failed miss on a full cache takes one away. */
  function Size<K(==, !new), V>(trace: seq<Access<K, V>>, k: nat): nat
    decreases |trace|, 0
  {
    if trace == [] then 0
    else
      var init, a := trace[..|trace| - 1], trace[|trace| - 1];
      var n := Size(init, k);
      if a.key in Window(init, k) then n
      else if a.init.Some? then (if n < k then n + 1 else n)
      else if n < k || n == 0 then n
      else n - 1
  }

  /** What the cache of capacity `k` should list after a trace: the last keys
      served, by most recent use, as many as it holds. */
  function Window<K(==, !new), V>(trace: seq<Access<K, V>>, k: nat): seq<K>
    decreases |trace|, 1
  {
    LastK(Recent(Served(trace, k)), Size(trace, k))
  }

  /** One more access, seen through the window. */
  function Used<K(==, !new), V>(w: seq<K>, k: nat, a: Access<K, V>): seq<K>
    requires k >= 1
  {
    if a.key in w then Touched(w, a.key)
    else
      var kept := if |w| >= k then w[1..] else w;
      if a.init.Some? then kept + [a.key] else kept
  }

  lemma RecentAppend<K(!new)>(keys: seq<K>, key: K)
    ensures Recent(keys + [key]) == Touched(Recent(keys), key)
  {
    assert (keys + [key])[..|keys|] == keys;
  }

  lemma LastKIs<K(!new)>(front: seq<K>, w: seq<K>, n: nat)
    requires |w| == n
    ensures LastK(front + w, n) == w
  {
  }

  lemma SplitLast<K(!new)>(r: seq<K>, n: nat) returns (front: seq<K>)
    requires n <= |r|
    ensures r == front + LastK(r, n) && |LastK(r, n)| == n && |front| == |r| - n
  {
    front := r[..|r| - n];
  }

  /** The recency order and the size after one more access, from the window before. */
  lemma UsedInWindow<K(!new), V>(r: seq<K>, n: nat, k: nat, a: Access<K, V>)
    requires Distinct(r) && n <= |r| && n <= k && k >= 1
    ensures var w := LastK(r, n);
            && (a.key in w ==> LastK(Touched(r, a.key), n) == Touched(w, a.key) && n <= |Touched(r, a.key)|)
            && (a.key !in w ==> |Touched(r, a.key)| > n && LastK(Touched(r, a.key), n + 1) == w + [a.key])
  {
    var w := LastK(r, n);
    var front := SplitLast(r, n);
    if a.key in w {
      TouchInside(front, w, a.key);
      LastKIs(front, Touched(w, a.key), n);
    } else {
      var rest := TouchOutside(front, w, a.key);
      LastKIs(rest, w + [a.key], n + 1);
    }
  }

  lemma LastKLess<K(!new)>(r: seq<K>, n: nat)
    requires 1 <= n <= |r|
    ensures LastK(r, n - 1) == LastK(r, n)[1..]
  {
  }

  lemma SizeStep<K(!new), V>(init: seq<Access<K, V>>, k: nat, a: Access<K, V>)
    requires k >= 1
    ensures Served(init + [a], k) ==
              if a.key in Window(init, k) || a.init.Some? then Served(init, k) + [a.key] else Served(init, k)
    ensures Size(init + [a], k) ==
              if a.key in Window(init, k) then Size(init, k)
              else if a.init.Some? then (if Size(init, k) < k then Size(init, k) + 1 else Size(init, k))
              else if Size(init, k) < k || Size(init, k) == 0 then Size(init, k)
              else Size(init, k) - 1
  {
    assert (init + [a])[..|init|] == init;
  }

  /** The window is as long as the size says. */
  ghost predicate Fits<K(!new), V>(trace: seq<Access<K, V>>, k: nat) {
    Size(trace, k) <= k && Size(trace, k) <= |Recent(Served(trace, k))|
  }

  lemma FitsLength<K(!new), V>(trace: seq<Access<K, V>>, k: nat)
    requires Fits(trace, k)
    ensures |Window(trace, k)| == Size(trace, k)
  {
  }

  lemma WindowStep<K(!new), V>(init: seq<Access<K, V>>, k: nat, a: Access<K, V>)
    requires k >= 1 && Fits(init, k)
    ensures Window(init + [a], k) == Used(Window(init, k), k, a) && Fits(init + [a], k)
  {
    var r, n := Recent(Served(init, k)), Size(init, k);
    RecentMeans(Served(init, k));
    SizeStep(init, k, a);
    FitsLength(init, k);
    RecentAppend(Served(init, k), a.key);
    UsedInWindow(r, n, k, a);
    if a.key !in Window(init, k) {
      if a.init.Some? && n == k {
        LastKLess(Touched(r, a.key), n + 1);
      } else if a.init.None? && n == k {
        LastKLess(r, n);
      }
    }
  }

  /** `key` is in the window after the first `j` accesses. */
  ghost predicate HeldAfter<K(!new), V>(trace: seq<Access<K, V>>, j: nat, k: nat, key: K)
    requires j <= |trace|
  {
    key in Window(trace[..j], k)
  }

  /** `value` stems from access `i`: a successful miss, since which the key was never evicted. */
  ghost predicate InitialisedAt<K(!new), V>(trace: seq<Access<K, V>>, k: nat, key: K, value: V, i: nat) {
    && i < |trace| && trace[i] == Access(key, Some(value)) && !HeldAfter(trace, i, k, key)
    && forall j :: i < j <= |trace| ==> HeldAfter(trace, j, k, key)
  }

  lemma HeldEarlier<K(!new), V>(init: seq<Access<K, V>>, a: Access<K, V>, j: nat, k: nat, key: K)
    requires j <= |init|
    ensures HeldAfter(init + [a], j, k, key) <==> HeldAfter(init, j, k, key)
  {
    assert (init + [a])[..j] == init[..j];
  }

  lemma HeldNow<K(!new), V>(trace: seq<Access<K, V>>, k: nat, key: K)
    ensures HeldAfter(trace, |trace|, k, key) <==> key in Window(trace, k)
  {
    assert trace[..|trace|] == trace;
  }

  ghost predicate StemsFrom<K(!new), V>(trace: seq<Access<K, V>>, k: nat, key: K, value: V) {
    exists i: nat :: InitialisedAt(trace, k, key, value, i)
  }

  /** The deque is the window, the map has exactly its keys, and each value is
      that of the initialisation since which its key has stayed. */
  ghost predicate IsWindow<K(!new), V>(c: Cache<K, V>, trace: seq<Access<K, V>>, k: nat) {
    && Agrees(c) && c.maxEntries == k && Fits(trace, k)
    && c.order == Window(trace, k)
    && forall key :: key in c.values ==> StemsFrom(trace, k, key, c.values[key])
  }

  lemma AccessOrder<K(!new), V>(c: Cache<K, V>, a: Access<K, V>)
    requires Agrees(c)
    ensures Accessed(c, a.key, a.init).0.order == Used(c.order, c.maxEntries, a)
  {
    DistinctSize(c.order, c.values);
  }

  lemma AccessWindow<K(!new), V>(c: Cache<K, V>, init: seq<Access<K, V>>, k: nat, a: Access<K, V>)
    requires IsWindow(c, init, k)
    ensures Agrees(Accessed(c, a.key, a.init).0) && Fits(init + [a], k)
    ensures Accessed(c, a.key, a.init).0.order == Window(init + [a], k)
  {
    AccessKeepsAgreement(c, a.key, a.init);
    AccessOrder(c, a);
    WindowStep(init, k, a);
  }

  lemma ValueStays<K(!new), V>(init: seq<Access<K, V>>, a: Access<K, V>, k: nat, key: K, value: V)
    requires StemsFrom(init, k, key, value) && key in Window(init + [a], k)
    ensures StemsFrom(init + [a], k, key, value)
  {
    var trace := init + [a];
    var i: nat :| InitialisedAt(init, k, key, value, i);
    forall j | i < j <= |trace| ensures HeldAfter(trace, j, k, key) {
      if j < |trace| {
        HeldEarlier(init, a, j, k, key);
      } else {
        HeldNow(trace, k, key);
      }
    }
    HeldEarlier(init, a, i, k, key);
    assert InitialisedAt(trace, k, key, value, i);
  }

  lemma ValueEnters<K(!new), V>(init: seq<Access<K, V>>, a: Access<K, V>, k: nat, value: V)
    requires a.init == Some(value) && a.key !in Window(init, k) && a.key in Window(init + [a], k)
    ensures StemsFrom(init + [a], k, a.key, value)
  {
    var trace := init + [a];
    HeldEarlier(init, a, |init|, k, a.key);
    HeldNow(init, k, a.key);
    HeldNow(trace, k, a.key);
    LastAccessInitialises(trace, k, value);
  }

  lemma LastAccessInitialises<K(!new), V>(trace: seq<Access<K, V>>, k: nat, value: V)
    requires trace != [] && trace[|trace| - 1].init == Some(value)
    requires var n := |trace| - 1; !HeldAfter(trace, n, k, trace[n].key) && HeldAfter(trace, n + 1, k, trace[n].key)
    ensures StemsFrom(trace, k, trace[|trace| - 1].key, value)
  {
    assert InitialisedAt(trace, k, trace[|trace| - 1].key, value, |trace| - 1);
  }

  lemma ValueRefines<K(!new), V>(c: Cache<K, V>, init: seq<Access<K, V>>, k: nat, a: Access<K, V>, key: K, value: V)
    requires IsWindow(c, init, k) && key in Window(init + [a], k)
    requires if key in c.values then value == c.values[key] else a == Access(key, Some(value))
    ensures StemsFrom(init + [a], k, key, value)
  {
    if key in c.values {
      ValueStays(init, a, k, key, value);
    } else {
      assert key !in c.order;
      ValueEnters(init, a, k, value);
    }
  }

  lemma AccessRefines<K(!new), V>(c: Cache<K, V>, init: seq<Access<K, V>>, k: nat, a: Access<K, V>)
    requires IsWindow(c, init, k)
    ensures IsWindow(Accessed(c, a.key, a.init).0, init + [a], k)
  {
    AccessWindow(c, init, k, a);
    var d := Accessed(c, a.key, a.init).0;
    forall key | key in d.values ensures StemsFrom(init + [a], k, key, d.values[key]) {
      KeptOrNew(c, a, key);
      ValueRefines(c, init, k, a, key, d.values[key]);
    }
  }

  lemma KeptOrNew<K(!new), V>(c: Cache<K, V>, a: Access<K, V>, key: K)
    requires key in Accessed(c, a.key, a.init).0.values
    ensures var d := Accessed(c, a.key, a.init).0;
            && d.maxEntries == c.maxEntries
            && if key in c.values then d.values[key] == c.values[key] else a == Access(key, Some(d.values[key]))
  {
    EvictedKeeps(c);
  }

  lemma {:induction false} EvictedKeeps<K(!new), V>(c: Cache<K, V>)
    ensures Evicted(c).values.Keys <= c.values.Keys && Evicted(c).maxEntries == c.maxEntries
    ensures forall x :: x in Evicted(c).values ==> Evicted(c).values[x] == c.values[x]
    decreases |c.order|
  {
    if c.order != [] && c.order[0] !in c.values {
      EvictedKeeps(c.(order := c.order[1..]));
    }
  }

  /** The refinement, after any trace of accesses, whether or not their initialisers succeed. */
  lemma {:induction false} CacheIsWindow<K(!new), V>(maxEntries: nat, trace: seq<Access<K, V>>)
    ensures IsWindow(AccessAll(Empty(maxEntries), trace), trace, Max(maxEntries, 1))
    decreases |trace|
  {
    if trace != [] {
      var init, last := trace[..|trace| - 1], trace[|trace| - 1];
      assert trace == init + [last];
      CacheIsWindow(maxEntries, init);
      var c: Cache<K, V> := AccessAll(Empty(maxEntries), init);
      AccessRefines(c, init, Max(maxEntries, 1), last);
    }
  }

  // ---- Traces without failures ---------------------------------------------------------

  ghost predicate Succeeds<K(!new), V>(trace: seq<Access<K, V>>) {
    forall i :: 0 <= i < |trace| ==> trace[i].init.Some?
  }

  /** Every access is served, and the cache is full as soon as there were enough keys. */
  lemma {:induction false} AllServed<K(!new), V>(trace: seq<Access<K, V>>, k: nat)
    requires k >= 1 && Succeeds(trace)
    ensures Served(trace, k) == KeysOf(trace) && Fits(trace, k)
    ensures Size(trace, k) == Min(k, |Recent(KeysOf(trace))|)
  {
    if trace != [] {
      var init, a := trace[..|trace| - 1], trace[|trace| - 1];
      assert trace == init + [a];
      AllServed(init, k);
      SizeStep(init, k, a);
      WindowStep(init, k, a);
      assert KeysOf(trace) == KeysOf(init) + [a.key];
      RecentAppend(KeysOf(init), a.key);
      RecentMeans(KeysOf(init));
      SizeOfTouched(Recent(KeysOf(init)), Size(init, k), k, a.key);
    }
  }

  lemma SizeOfTouched<K(!new)>(r: seq<K>, n: nat, k: nat, key: K)
    requires Distinct(r) && n == Min(k, |r|)
    ensures var m := if key in LastK(r, n) || n >= k then n else n + 1;
            m == Min(k, |Touched(r, key)|)
  {
    WithoutFirstDistinct(r, key);
    if n < k {
      assert LastK(r, n) == r;
    }
  }

  lemma WindowOfServed<K(!new), V>(trace: seq<Access<K, V>>, k: nat)
    requires k >= 1 && Succeeds(trace)
    ensures Window(trace, k) == LastK(Recent(KeysOf(trace)), k)
  {
    AllServed(trace, k);
  }

  lemma OrderAndKeys<K(!new), V>(c: Cache<K, V>, trace: seq<Access<K, V>>, k: nat)
    requires IsWindow(c, trace, k)
    ensures c.order == Window(trace, k) && forall x :: x in c.values <==> x in Window(trace, k)
  {
  }

  /** Then the deque is the last k distinct keys used, and the map has exactly those. */
  lemma SuccessfulWindow<K(!new), V>(maxEntries: nat, trace: seq<Access<K, V>>)
    requires Succeeds(trace)
    ensures var c: Cache<K, V> := AccessAll(Empty(maxEntries), trace);
            var w := LastK(Recent(KeysOf(trace)), Max(maxEntries, 1));
            c.order == w && forall x :: x in c.values <==> x in w
  {
    CacheIsWindow(maxEntries, trace);
    WindowOfServed(trace, Max(maxEntries, 1));
    OrderAndKeys(AccessAll(Empty(maxEntries), trace), trace, Max(maxEntries, 1));
  }

  // ---- One cache inside a larger one -----------------------------------------------------

  /** In every cache the deque is ordered by the last access, served or not: a
      key that is held is served whenever it is asked for. */
  lemma {:induction false} OrderByLastUse<K(!new), V>(maxEntries: nat, trace: seq<Access<K, V>>)
    ensures ByLastUse(AccessAll(Empty(maxEntries), trace).order, KeysOf(trace))
    decreases |trace|
  {
    if trace != [] {
      var init, a := trace[..|trace| - 1], trace[|trace| - 1];
      var c: Cache<K, V> := AccessAll(Empty(maxEntries), init);
      OrderByLastUse(maxEntries, init);
      CacheIsWindow(maxEntries, init);
      AccessOrder(c, a);
      assert KeysOf(trace) == KeysOf(init) + [a.key];
      UsedByLastUse(c.order, c.maxEntries, a, KeysOf(init));
    }
  }

  lemma LastUseAppend<K(!new)>(keys: seq<K>, key: K, x: K)
    ensures LastUse(keys + [key], x) == if x == key then |keys| else LastUse(keys, x)
  {
    assert (keys + [key])[..|keys|] == keys;
  }

  lemma LaterUse<K(!new)>(s: seq<K>, keys: seq<K>, key: K)
    requires ByLastUse(s, keys) && key !in s
    ensures ByLastUse(s, keys + [key]) && ByLastUse(s + [key], keys + [key])
  {
    forall i | 0 <= i < |s| ensures LastUse(keys + [key], s[i]) == LastUse(keys, s[i]) < |keys| {
      LastUseAppend(keys, key, s[i]);
      LastUseMeans(keys, s[i]);
    }
    LastUseAppend(keys, key, key);
  }

  lemma UsedByLastUse<K(!new), V>(s: seq<K>, k: nat, a: Access<K, V>, keys: seq<K>)
    requires Distinct(s) && ByLastUse(s, keys) && k >= 1
    ensures ByLastUse(Used(s, k, a), keys + [a.key])
  {
    if a.key in s {
      WithoutFirstOrder(s, a.key, keys);
      WithoutFirstDistinct(s, a.key);
      LaterUse(WithoutFirst(s, a.key), keys, a.key);
    } else {
      LaterUse(if |s| >= k then s[1..] else s, keys, a.key);
    }
  }

  /** So the oldest key of the larger deque, if the smaller holds it, is the oldest there too. */
  lemma SharedOldest<K(!new)>(small: seq<K>, large: seq<K>, keys: seq<K>)
    requires ByLastUse(small, keys) && ByLastUse(large, keys) && large != [] && large[0] in small
    requires forall x :: x in small ==> x in large
    ensures small[0] == large[0]
  {
    var j :| 0 <= j < |small| && small[j] == large[0];
    assert small[0] in large;
    var i :| 0 <= i < |large| && large[i] == small[0];
  }

  /** The access evicts from the larger cache, which is full, a key that the
      smaller one, which has room, keeps. */
  predicate Overruns<K(==, !new)>(small: seq<K>, large: seq<K>, k: nat, key: K) {
    key !in large && |large| > k && |small| < k && large[0] in small
  }

  ghost predicate Included<K(!new)>(small: seq<K>, large: seq<K>) {
    forall x :: x in small ==> x in large
  }

  lemma UsedMembers<K(!new), V>(s: seq<K>, k: nat, a: Access<K, V>)
    requires Distinct(s) && k >= 1
    ensures forall x :: x in Used(s, k, a) <==>
              || (x == a.key && (a.key in s || a.init.Some?))
              || (x in s && !(a.key !in s && |s| >= k && x == s[0]))
  {
    WithoutFirstDistinct(s, a.key);
    if s != [] {
      assert s == [s[0]] + s[1..];
    }
  }

  /** One access keeps the smaller deque inside the larger exactly when it does not overrun. */
  lemma InclusionStep<K(!new), V>(small: seq<K>, large: seq<K>, k: nat, a: Access<K, V>, keys: seq<K>)
    requires Distinct(small) && Distinct(large) && |small| <= k && |large| <= k + 1 && k >= 1
    requires ByLastUse(small, keys) && ByLastUse(large, keys) && Included(small, large)
    ensures Included(Used(small, k, a), Used(large, k + 1, a)) <==> !Overruns(small, large, k, a.key)
  {
    UsedMembers(small, k, a);
    UsedMembers(large, k + 1, a);
    if a.key !in large && |large| > k && large[0] in small {
      SharedOldest(small, large, keys);
      if |small| < k {
        assert large[0] in Used(small, k, a) && large[0] !in Used(large, k + 1, a);
      }
    }
  }

  /** The deque of capacity `k` after the first `n` accesses. */
  function OrderAt<K(==, !new), V>(trace: seq<Access<K, V>>, k: nat, n: nat): seq<K>
    requires n <= |trace|
  {
    AccessAll(Empty(k), trace[..n]).order
  }

  lemma OrderAtStep<K(!new), V>(trace: seq<Access<K, V>>, k: nat, n: nat)
    requires n < |trace| && k >= 1
    ensures Distinct(OrderAt(trace, k, n)) && |OrderAt(trace, k, n)| <= k
    ensures OrderAt(trace, k, n + 1) == Used(OrderAt(trace, k, n), k, trace[n])
  {
    CacheIsWindow(k, trace[..n]);
    AccessOrder(AccessAll(Empty(k), trace[..n]), trace[n]);
    assert trace[..n + 1][..n] == trace[..n];
  }

  ghost predicate IncludedAt<K(!new), V>(trace: seq<Access<K, V>>, k: nat, n: nat)
    requires n <= |trace|
  {
    Included(OrderAt(trace, k, n), OrderAt(trace, k + 1, n))
  }

  ghost predicate OverrunsAt<K(!new), V>(trace: seq<Access<K, V>>, k: nat, n: nat)
    requires n < |trace|
  {
    Overruns(OrderAt(trace, k, n), OrderAt(trace, k + 1, n), k, trace[n].key)
  }

  lemma IncludedStep<K(!new), V>(trace: seq<Access<K, V>>, k: nat, n: nat)
    requires n < |trace| && k >= 1 && IncludedAt(trace, k, n)
    ensures IncludedAt(trace, k, n + 1) <==> !OverrunsAt(trace, k, n)
  {
    OrderAtStep(trace, k, n);
    OrderAtStep(trace, k + 1, n);
    OrderByLastUse(k, trace[..n]);
    OrderByLastUse(k + 1, trace[..n]);
    InclusionStep(OrderAt(trace, k, n), OrderAt(trace, k + 1, n), k, trace[n], KeysOf(trace[..n]));
  }

  lemma {:induction false} IncludedWhile<K(!new), V>(trace: seq<Access<K, V>>, k: nat, n: nat)
    requires n <= |trace| && k >= 1 && forall m :: 0 <= m < n ==> !OverrunsAt(trace, k, m)
    ensures IncludedAt(trace, k, n)
  {
    if n > 0 {
      IncludedWhile(trace, k, n - 1);
      IncludedStep(trace, k, n - 1);
    }
  }

  /** A cache of capacity k stays inside one of capacity k + 1 throughout a trace
      if and only if no access overruns. */
  lemma InclusionExact<K(!new), V>(trace: seq<Access<K, V>>, k: nat)
    requires k >= 1
    ensures (forall n :: 0 <= n <= |trace| ==> IncludedAt(trace, k, n))
            <==> (forall n :: 0 <= n < |trace| ==> !OverrunsAt(trace, k, n))
  {
    if forall n :: 0 <= n < |trace| ==> !OverrunsAt(trace, k, n) {
      forall n | 0 <= n <= |trace| ensures IncludedAt(trace, k, n) {
        IncludedWhile(trace, k, n);
      }
    }
    if forall n :: 0 <= n <= |trace| ==> IncludedAt(trace, k, n) {
      forall n | 0 <= n < |trace| ensures !OverrunsAt(trace, k, n) {
        assert IncludedAt(trace, k, n) && IncludedAt(trace, k, n + 1);
        IncludedStep(trace, k, n);
      }
    }
  }

  lemma SuccessfulOrder<K(!new), V>(trace: seq<Access<K, V>>, k: nat, n: nat)
    requires n <= |trace| && k >= 1 && Succeeds(trace)
    ensures OrderAt(trace, k, n) == LastK(Recent(KeysOf(trace[..n])), k)
  {
    SuccessfulWindow(k, trace[..n]);
  }

  /** Without failures the larger cache is only full when the smaller one is. */
  lemma SuccessNeverOverruns<K(!new), V>(trace: seq<Access<K, V>>, k: nat, n: nat)
    requires n < |trace| && k >= 1 && Succeeds(trace)
    ensures !OverrunsAt(trace, k, n)
  {
    SuccessfulOrder(trace, k, n);
    SuccessfulOrder(trace, k + 1, n);
  }

  /** So a larger cache always holds the keys a smaller one holds. */
  lemma LargerCacheContains<K(!new), V>(maxEntries: nat, trace: seq<Access<K, V>>, x: K)
    requires maxEntries >= 1 && Succeeds(trace)
    requires x in AccessAll(Empty(maxEntries), trace).values
    ensures x in AccessAll(Empty(maxEntries + 1), trace).values
  {
    forall n | 0 <= n < |trace| ensures !OverrunsAt(trace, maxEntries, n) {
      SuccessNeverOverruns(trace, maxEntries, n);
    }
    IncludedWhile(trace, maxEntries, |trace|);
    IncludedValues(trace, maxEntries, x);
  }

  /** Deques inside one another mean maps inside one another. */
  lemma IncludedValues<K(!new), V>(trace: seq<Access<K, V>>, k: nat, x: K)
    requires k >= 1 && IncludedAt(trace, k, |trace|) && x in AccessAll(Empty(k), trace).values
    ensures x in AccessAll(Empty(k + 1), trace).values
  {
    assert trace[..|trace|] == trace;
    CacheIsWindow(k, trace);
    CacheIsWindow(k + 1, trace);
    assert x in OrderAt(trace, k, |trace|);
  }

  // ---- Failures break the inclusion -----------------------------------------------------

  lemma Then<K(!new), V>(c: Cache<K, V>, trace: seq<Access<K, V>>, a: Access<K, V>, d: Cache<K, V>)
    requires Accessed(AccessAll(c, trace), a.key, a.init).0 == d
    ensures AccessAll(c, trace + [a]) == d
  {
    assert (trace + [a])[..|trace|] == trace;
  }

  function Keep(maxEntries: nat, order: seq<nat>, values: set<nat>): Cache<nat, bool> {
    Cache(maxEntries, order, map k | k in values :: true)
  }

  function Ok(key: nat): Access<nat, bool> {
    Access(key, Some(true))
  }

  function Fail(key: nat): Access<nat, bool> {
    Access(key, None)
  }

  /** The capacity-2 cache loses a key to the first failure only. */
  lemma SmallKeeps(trace: seq<Access<nat, bool>>)
    requires trace == [Ok(1)] + [Ok(2)] + [Ok(3)] + [Fail(1)] + [Fail(2)] + [Fail(4)]
    ensures AccessAll(Empty(2), trace) == Keep(2, [3], {3})
  {
    Then(Empty(2), [], Ok(1), Keep(2, [1], {1}));
    assert [] + [Ok(1)] == [Ok(1)];
    Then(Empty(2), [Ok(1)], Ok(2), Keep(2, [1, 2], {1, 2}));
    Then(Empty(2), [Ok(1)] + [Ok(2)], Ok(3), Keep(2, [2, 3], {2, 3}));
    Then(Empty(2), [Ok(1)] + [Ok(2)] + [Ok(3)], Fail(1), Keep(2, [3], {3}));
    Then(Empty(2), [Ok(1)] + [Ok(2)] + [Ok(3)] + [Fail(1)], Fail(2), Keep(2, [3], {3}));
    Then(Empty(2), [Ok(1)] + [Ok(2)] + [Ok(3)] + [Fail(1)] + [Fail(2)], Fail(4), Keep(2, [3], {3}));
  }

  /** The capacity-3 cache hits where the other fails, and is full when the last access fails. */
  lemma LargeDrops(trace: seq<Access<nat, bool>>)
    requires trace == [Ok(1)] + [Ok(2)] + [Ok(3)] + [Fail(1)] + [Fail(2)] + [Fail(4)]
    ensures AccessAll(Empty(3), trace) == Keep(3, [1, 2], {1, 2})
  {
    Then(Empty(3), [], Ok(1), Keep(3, [1], {1}));
    assert [] + [Ok(1)] == [Ok(1)];
    Then(Empty(3), [Ok(1)], Ok(2), Keep(3, [1, 2], {1, 2}));
    Then(Empty(3), [Ok(1)] + [Ok(2)], Ok(3), Keep(3, [1, 2, 3], {1, 2, 3}));
    Then(Empty(3), [Ok(1)] + [Ok(2)] + [Ok(3)], Fail(1), Keep(3, [2, 3, 1], {1, 2, 3}));
    Then(Empty(3), [Ok(1)] + [Ok(2)] + [Ok(3)] + [Fail(1)], Fail(2), Keep(3, [3, 1, 2], {1, 2, 3}));
    Then(Empty(3), [Ok(1)] + [Ok(2)] + [Ok(3)] + [Fail(1)] + [Fail(2)], Fail(4), Keep(3, [1, 2], {1, 2}));
  }

  /** With failing initialisers a larger cache need not hold what a smaller one holds. */
  lemma FailuresBreakInclusion() returns (trace: seq<Access<nat, bool>>)
    ensures 3 in AccessAll(Empty(2), trace).values && 3 !in AccessAll(Empty(3), trace).values
  {
    trace := [Ok(1)] + [Ok(2)] + [Ok(3)] + [Fail(1)] + [Fail(2)] + [Fail(4)];
    SmallKeeps(trace);
    LargeDrops(trace);
  }
}
