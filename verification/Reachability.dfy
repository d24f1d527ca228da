/** Paths in finite directed graphs, and the worklist loop that CI impact
    analysis runs over them.

    A graph maps a node to the set of its successors; a node that is not a key
    has none, which is what `dict.get(node, ())` gives in the script. */
module Reachability {

  type Graph<T> = map<T, set<T>>

  function Succ<K, V>(g: map<K, set<V>>, x: K): set<V> {
    if x in g then g[x] else {}
  }

  /** `path` is a walk along edges of `g`. */
  ghost predicate IsPath<T>(g: Graph<T>, path: seq<T>) {
    && path != []
    && forall i :: 0 <= i < |path| - 1 ==> path[i + 1] in Succ(g, path[i])
  }

  ghost predicate Joins<T>(path: seq<T>, a: T, b: T) {
    path != [] && path[0] == a && path[|path| - 1] == b
  }

  ghost predicate Reaches<T(!new)>(g: Graph<T>, a: T, b: T) {
    exists path :: IsPath(g, path) && Joins(path, a, b)
  }

  /** `b` lies on a path that starts at a member of `from`. */
  ghost predicate ReachedFrom<T(!new)>(g: Graph<T>, from: set<T>, b: T) {
    exists a :: a in from && Reaches(g, a, b)
  }

  lemma ReachesSelf<T(!new)>(g: Graph<T>, a: T)
    ensures Reaches(g, a, a)
  {
    assert IsPath(g, [a]) && Joins([a], a, a);
  }

  lemma ReachesStep<T(!new)>(g: Graph<T>, a: T, b: T, c: T)
    requires Reaches(g, a, b) && c in Succ(g, b)
    ensures Reaches(g, a, c)
  {
    var path :| IsPath(g, path) && Joins(path, a, b);
    var longer := path + [c];
    assert IsPath(g, longer) && Joins(longer, a, c);
  }

  lemma StepReaches<T(!new)>(g: Graph<T>, a: T, b: T, c: T)
    requires b in Succ(g, a) && Reaches(g, b, c)
    ensures Reaches(g, a, c)
  {
    var path :| IsPath(g, path) && Joins(path, b, c);
    var longer := [a] + path;
    assert forall i :: 0 <= i < |longer| - 1 ==> longer[i + 1] in Succ(g, longer[i]) by {
      forall i | 0 <= i < |longer| - 1 ensures longer[i + 1] in Succ(g, longer[i]) {
        if i > 0 {
          assert path[(i - 1) + 1] in Succ(g, path[i - 1]);
        }
      }
    }
    assert IsPath(g, longer) && Joins(longer, a, c);
  }

  /** A set closed under the edges that hold inside `within` keeps every path
      that starts in it: the induction principle all reachability proofs use. */
  lemma {:induction false} ClosedKeepsPaths<T(!new)>(g: Graph<T>, s: set<T>, a: T, b: T)
    requires a in s && Reaches(g, a, b)
    requires forall x :: x in s ==> Succ(g, x) <= s
    ensures b in s
  {
    var path :| IsPath(g, path) && Joins(path, a, b);
    var i := 0;
    while i < |path| - 1
      invariant 0 <= i < |path|
      invariant path[i] in s
    {
      assert path[i + 1] in Succ(g, path[i]);
      i := i + 1;
    }
  }

  ghost predicate Reverses<T(!new)>(rev: Graph<T>, g: Graph<T>) {
    forall a, b :: a in Succ(rev, b) <==> b in Succ(g, a)
  }

  /** Walking the reversed edges from `b` finds exactly the nodes with a path to `b`. */
  lemma ReverseReaches<T(!new)>(g: Graph<T>, rev: Graph<T>, a: T, b: T)
    requires Reverses(rev, g)
    ensures Reaches(rev, b, a) <==> Reaches(g, a, b)
  {
    if Reaches(rev, b, a) {
      ReverseOne(rev, g, b, a);
    }
    if Reaches(g, a, b) {
      ReverseOne(g, rev, a, b);
    }
  }

  lemma {:induction false} ReverseOne<T(!new)>(g: Graph<T>, rev: Graph<T>, a: T, b: T)
    requires forall x, y :: y in Succ(g, x) ==> x in Succ(rev, y)
    requires Reaches(g, a, b)
    ensures Reaches(rev, b, a)
  {
    var path :| IsPath(g, path) && Joins(path, a, b);
    var i := 0;
    ReachesSelf(rev, a);
    while i < |path| - 1
      invariant 0 <= i < |path|
      invariant Reaches(rev, path[i], a)
    {
      assert path[i + 1] in Succ(g, path[i]);
      StepReaches(rev, path[i + 1], path[i], a);
      i := i + 1;
    }
  }

  /** A finite set holding everything the walk can meet, for termination. */
  lemma Universe<T(!new)>(g: Graph<T>, start: set<T>) returns (nodes: set<T>)
    ensures start <= nodes
    ensures forall x :: Succ(g, x) <= nodes
  {
    nodes := start + (set k, x | k in g && x in g[k] :: x);
  }

  /** The worklist shared by the two reverse closures: pop a node, add the
      neighbours not met before, push them.  The visiting order of a Python set
      is not fixed, so the neighbour is picked nondeterministically. */
  method Closure<T(==, !new)>(g: Graph<T>, start: set<T>) returns (reached: set<T>)
    ensures forall x :: x in reached <==> ReachedFrom(g, start, x)
  {
    reached := start;
    var stack := ListOf(start);
    ghost var nodes := Universe(g, start);
    StartReached(g, start);
    while stack != []
      invariant start <= reached <= nodes
      invariant Explored(g, reached, stack)
      invariant AllReached(g, start, reached)
      decreases nodes - reached, |stack|
    {
      var current := stack[|stack| - 1];
      ghost var stack0, reached0 := stack, reached;
      stack := stack[..|stack| - 1];
      reached, stack := AddNeighbours(g, start, current, reached, stack);
      ExploredStep(g, reached0, stack0, reached, stack);
      ShrinksOrSame(nodes, reached0, reached);
    }
    ClosedIsComplete(g, start, reached);
  }

  ghost predicate AllReached<T(!new)>(g: Graph<T>, start: set<T>, reached: set<T>) {
    forall x :: x in reached ==> ReachedFrom(g, start, x)
  }

  /** Marked nodes are either waiting on the stack or have all their successors marked. */
  ghost predicate Explored<T(!new)>(g: Graph<T>, reached: set<T>, stack: seq<T>) {
    && (forall x :: x in stack ==> x in reached)
    && (forall x :: x in reached && x !in stack ==> Succ(g, x) <= reached)
  }

  lemma StartReached<T(!new)>(g: Graph<T>, start: set<T>)
    ensures AllReached(g, start, start)
  {
    forall x | x in start ensures ReachedFrom(g, start, x) {
      ReachesSelf(g, x);
    }
  }

  lemma ExploredStep<T(!new)>(g: Graph<T>, reached0: set<T>, stack0: seq<T>, reached: set<T>, stack: seq<T>)
    requires stack0 != [] && Explored(g, reached0, stack0)
    requires reached == reached0 + Succ(g, stack0[|stack0| - 1])
    requires forall x :: x in stack <==> x in stack0[..|stack0| - 1] || x in reached - reached0
    ensures Explored(g, reached, stack)
  {
    forall x | x in reached && x !in stack ensures Succ(g, x) <= reached {
      if x != stack0[|stack0| - 1] {
        assert x !in stack0;
      }
    }
  }

  lemma ShrinksOrSame<T>(nodes: set<T>, before: set<T>, after: set<T>)
    requires before <= after <= nodes
    ensures after == before || nodes - after < nodes - before
  {
    if after != before {
      assert exists x :: x in after && x !in before;
      var x :| x in after && x !in before;
      assert x in nodes - before && x !in nodes - after;
    }
  }

  lemma ClosedIsComplete<T(!new)>(g: Graph<T>, start: set<T>, reached: set<T>)
    requires start <= reached && Explored(g, reached, [])
    ensures forall x :: ReachedFrom(g, start, x) ==> x in reached
  {
    forall x | ReachedFrom(g, start, x) ensures x in reached {
      var a :| a in start && Reaches(g, a, x);
      ClosedKeepsPaths(g, reached, a, x);
    }
  }

  /** The inner `for` loop: mark and push each unmarked neighbour of `current`. */
  method AddNeighbours<T(==, !new)>(g: Graph<T>, ghost start: set<T>, current: T, reached0: set<T>, stack0: seq<T>)
    returns (reached: set<T>, stack: seq<T>)
    requires current in reached0
    requires AllReached(g, start, reached0)
    ensures reached == reached0 + Succ(g, current)
    ensures forall x :: x in stack <==> x in stack0 || x in reached - reached0
    ensures reached == reached0 ==> stack == stack0
    ensures AllReached(g, start, reached)
  {
    reached, stack := reached0, stack0;
    var todo := Succ(g, current);
    ghost var base: T :| base in start && Reaches(g, base, current);
    while todo != {}
      invariant todo <= Succ(g, current)
      invariant reached0 <= reached
      invariant reached + todo == reached0 + Succ(g, current)
      invariant forall x :: x in stack <==> x in stack0 || x in reached - reached0
      invariant reached == reached0 ==> stack == stack0
      invariant AllReached(g, start, reached)
      decreases todo
    {
      var x :| x in todo;
      todo := todo - {x};
      if x !in reached {
        ReachesStep(g, base, current, x);
        reached := reached + {x};
        stack := stack + [x];
      }
    }
  }

  /** `list(s)` for a set: its elements once each, in no particular order. */
  method ListOf<T(==)>(s: set<T>) returns (list: seq<T>)
    ensures forall x :: x in list <==> x in s
    ensures |list| == |s|
  {
    list := [];
    var rest := s;
    while rest != {}
      invariant rest <= s
      invariant forall x :: x in list <==> x in s - rest
      invariant |list| + |rest| == |s|
      decreases rest
    {
      var x :| x in rest;
      list, rest := list + [x], rest - {x};
    }
  }

  /** `rev[target].add(source)` for every target. */
  method AddEdges<T(==, !new)>(rev: Graph<T>, targets: set<T>, source: T) returns (out: Graph<T>)
    ensures forall t :: Succ(out, t) == if t in targets then Succ(rev, t) + {source} else Succ(rev, t)
  {
    out := rev;
    var todo := targets;
    while todo != {}
      invariant todo <= targets
      invariant forall t :: Succ(out, t) == if t in targets - todo then Succ(rev, t) + {source} else Succ(rev, t)
      decreases todo
    {
      var t :| t in todo;
      out := out[t := Succ(out, t) + {source}];
      todo := todo - {t};
    }
  }

  ghost predicate ReachesAny<T(!new)>(g: Graph<T>, a: T, goals: set<T>) {
    exists b :: b in goals && Reaches(g, a, b)
  }

  /** The forward search from one node that stops at the first goal it pops. */
  method SearchForward<T(==, !new)>(g: Graph<T>, a: T, goals: set<T>) returns (found: bool)
    ensures found <==> ReachesAny(g, a, goals)
  {
    var stack, seen := [a], {a};
    ghost var start := seen;
    ghost var nodes := Universe(g, start);
    StartReached(g, start);
    while stack != []
      invariant start <= seen <= nodes
      invariant Explored(g, seen, stack)
      invariant AllReached(g, start, seen)
      invariant Cleared(seen, stack, goals)
      decreases nodes - seen, |stack|
    {
      var current := stack[|stack| - 1];
      ghost var stack0, seen0 := stack, seen;
      stack := stack[..|stack| - 1];
      if current in goals {
        GoalFound(g, a, goals, start, current);
        return true;
      }
      seen, stack := AddNeighbours(g, start, current, seen, stack);
      ExploredStep(g, seen0, stack0, seen, stack);
      ClearedStep(seen0, stack0, seen, stack, goals);
      ShrinksOrSame(nodes, seen0, seen);
    }
    found := false;
    NoGoal(g, a, goals, start, seen);
  }

  /** Every goal met so far still waits on the stack. */
  ghost predicate Cleared<T(!new)>(seen: set<T>, stack: seq<T>, goals: set<T>) {
    forall x :: x in seen && x in goals ==> x in stack
  }

  lemma ClearedStep<T(!new)>(seen0: set<T>, stack0: seq<T>, seen: set<T>, stack: seq<T>, goals: set<T>)
    requires stack0 != [] && Cleared(seen0, stack0, goals) && stack0[|stack0| - 1] !in goals
    requires forall x :: x in stack <==> x in stack0[..|stack0| - 1] || x in seen - seen0
    ensures Cleared(seen, stack, goals)
  {
    forall x | x in seen && x in goals ensures x in stack {
      if x in seen0 {
        assert stack0 == stack0[..|stack0| - 1] + [stack0[|stack0| - 1]];
      }
    }
  }

  lemma GoalFound<T(!new)>(g: Graph<T>, a: T, goals: set<T>, start: set<T>, current: T)
    requires start == {a} && current in goals && ReachedFrom(g, start, current)
    ensures ReachesAny(g, a, goals)
  {
  }

  lemma NoGoal<T(!new)>(g: Graph<T>, a: T, goals: set<T>, start: set<T>, seen: set<T>)
    requires start == {a} && start <= seen && Explored(g, seen, [])
    requires Cleared(seen, [], goals)
    ensures !ReachesAny(g, a, goals)
  {
    ClosedIsComplete(g, start, seen);
    forall b | b in goals ensures !Reaches(g, a, b) {
      assert a in start;
      assert b !in seen;
    }
  }
}
