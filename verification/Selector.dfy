/** Which crates a change selects for testing and linting
    (scripts/ci_affected.py, `vendored_heavy_crates` to `detect`). */
module Selector {
  import opened Basics
  import opened Reachability
  import LockGraph

  /** What `workspace_graph` and the vendored scan read from the manifests:
      member directories and their crate names, path dependencies between
      crates, and the crates that name a vendored dependency themselves. */
  datatype Workspace = Workspace(dir2name: map<string, string>, deps: Graph<string>, direct: set<string>)

  // ---- File ownership -------------------------------------------------------

  const CROSS_EXACT := "Cargo.toml"
  const CROSS_PREFIX := [".cargo/", "deps/", "patches/"]
  const TOOLCHAIN_PREFIX := "rust-toolchain"
  const LOCK_PATH := "Cargo.lock"

  predicate Skipped(component: string) {
    component == "" || component == "."
  }

  /** `Path(f).name`: the last component; empty and `.` components do not count. */
  function BaseName(s: string, component: string, last: string): string {
    if s == [] then
      if Skipped(component) then last else component
    else if s[0] == '/' then
      BaseName(s[1..], "", if Skipped(component) then last else component)
    else
      BaseName(s[1..], component + [s[0]], last)
  }

  predicate IsCrossCutting(f: string) {
    || f == CROSS_EXACT
    || (exists i :: 0 <= i < |CROSS_PREFIX| && CROSS_PREFIX[i] <= f)
    || TOOLCHAIN_PREFIX <= BaseName(f, "", "")
  }

  predicate Owns(dir: string, f: string) {
    f == dir || dir + "/" <= f
  }

  /** `dir` owns `f` and no directory of `dirs` that owns `f` is longer. */
  ghost predicate Deepest(dirs: set<string>, f: string, dir: string) {
    && dir in dirs && Owns(dir, f)
    && forall other :: other in dirs && Owns(other, f) ==> |other| <= |dir|
  }

  /** The deepest member directory that contains the file decides its owner. */
  ghost predicate OwnedBy(f: string, dir2name: map<string, string>, c: string) {
    exists dir :: Deepest(dir2name.Keys, f, dir) && dir != "" && dir2name[dir] == c
  }

  lemma OwnersOfOneLength(f: string, a: string, b: string)
    requires Owns(a, f) && Owns(b, f) && |a| == |b|
    ensures a == b
  {
    assert a == f[..|a|] && b == f[..|b|];
  }

  /** A file has at most one owner, whatever order the directories come in. */
  lemma OwnerUnique(f: string, dir2name: map<string, string>, c: string, d: string)
    requires OwnedBy(f, dir2name, c) && OwnedBy(f, dir2name, d)
    ensures c == d
  {
    var x :| Deepest(dir2name.Keys, f, x) && x != "" && dir2name[x] == c;
    var y :| Deepest(dir2name.Keys, f, y) && y != "" && dir2name[y] == d;
    OwnersOfOneLength(f, x, y);
  }

  /** A file belongs to its nearest enclosing member directory: the one that
      contains it and has no member directory inside that contains it too. */
  lemma OwnerIsNearest(f: string, dir2name: map<string, string>, c: string)
    ensures OwnedBy(f, dir2name, c) <==>
              exists dir :: dir in dir2name && dir != "" && dir2name[dir] == c && Contains(dir, f)
                            && forall inner :: inner in dir2name && Contains(inner, f) ==> !(dir + "/" <= inner)
  {
    if OwnedBy(f, dir2name, c) {
      var dir :| Deepest(dir2name.Keys, f, dir) && dir != "" && dir2name[dir] == c;
      assert Contains(dir, f);
      forall inner | inner in dir2name && Contains(inner, f) ensures !(dir + "/" <= inner) {
        assert Owns(inner, f);
      }
    }
    if dir :| dir in dir2name && dir != "" && dir2name[dir] == c && Contains(dir, f)
              && forall inner :: inner in dir2name && Contains(inner, f) ==> !(dir + "/" <= inner) {
      forall other | other in dir2name.Keys && Owns(other, f) ensures |other| <= |dir| {
        assert Contains(other, f);
        if |other| > |dir| {
          LongerIsInside(f, dir, other);
        }
      }
      assert Deepest(dir2name.Keys, f, dir);
    }
  }

  /** The path `f` is `dir` or lies below it. */
  predicate Contains(dir: string, f: string) {
    f == dir || (|f| > |dir| && f[..|dir|] == dir && f[|dir|] == '/')
  }

  lemma LongerIsInside(f: string, dir: string, other: string)
    requires Contains(dir, f) && Contains(other, f) && |other| > |dir|
    ensures dir + "/" <= other
  {
    assert other == f[..|other|];
    assert other[..|dir|] == f[..|dir|] && other[|dir|] == f[|dir|] == '/';
  }

  /** `owning_crate`.  The loop takes the directories in an arbitrary order, so
      the contract, which fixes the result, holds for every dictionary order. */
  method OwningCrate(f: string, dir2name: map<string, string>) returns (owner: Option<string>)
    ensures owner.Some? ==> OwnedBy(f, dir2name, owner.value)
    ensures owner.None? ==> forall c :: !OwnedBy(f, dir2name, c)
  {
    var best: Option<string> := None;
    var todo := dir2name.Keys;
    ghost var done: set<string> := {};
    while todo != {}
      invariant done + todo == dir2name.Keys && done !! todo
      invariant best.Some? ==> Deepest(done, f, best.value)
      invariant best.None? ==> forall d :: d in done ==> !Owns(d, f)
      decreases todo
    {
      var d :| d in todo;
      todo, done := todo - {d}, done + {d};
      if Owns(d, f) && (best.None? || |d| > |best.value|) {
        best := Some(d);
      }
    }
    assert done == dir2name.Keys;
    if best.Some? && best.value != "" {
      owner := Some(dir2name[best.value]);
    } else {
      owner := None;
    }
  }

  // ---- Closures over the crate graph ----------------------------------------

  /** The crates with a dependency path to a seed, seeds included. */
  ghost function DependentsOf(seeds: set<string>, deps: Graph<string>): set<string> {
    set x | x in seeds + deps.Keys && ReachesAny(deps, x, seeds)
  }

  /** A node that reaches something has an edge out, unless it is that thing. */
  lemma ReachesOut(deps: Graph<string>, x: string, s: string)
    requires Reaches(deps, x, s)
    ensures x == s || x in deps
  {
    var path :| IsPath(deps, path) && Joins(path, x, s);
    if |path| > 1 {
      assert path[0 + 1] in Succ(deps, path[0]);
    }
  }

  /** The first loop of `dependents_closure`. */
  method ReverseDeps(deps: Graph<string>) returns (rev: Graph<string>)
    ensures Reverses(rev, deps)
  {
    rev := map[];
    var todo := deps.Keys;
    ghost var done: set<string> := {};
    while todo != {}
      invariant done + todo == deps.Keys && done !! todo
      invariant ReversedFor(rev, deps, done)
      decreases todo
    {
      var crate :| crate in todo;
      rev := AddEdges(rev, deps[crate], crate);
      todo, done := todo - {crate}, done + {crate};
    }
    assert done == deps.Keys;
  }

  ghost predicate ReversedFor(rev: Graph<string>, deps: Graph<string>, done: set<string>) {
    forall a, b :: a in Succ(rev, b) <==> a in done && b in Succ(deps, a)
  }

  /** `dependents_closure`: exactly the crates with a path to a seed. */
  method DependentsClosure(seeds: set<string>, deps: Graph<string>) returns (affected: set<string>)
    ensures affected == DependentsOf(seeds, deps)
  {
    var rev := ReverseDeps(deps);
    affected := Closure(rev, seeds);
    forall x ensures x in affected <==> x in DependentsOf(seeds, deps) {
      if x in affected {
        var s :| s in seeds && Reaches(rev, s, x);
        ReverseReaches(deps, rev, x, s);
        ReachesOut(deps, x, s);
      }
      if x in DependentsOf(seeds, deps) {
        var s :| s in seeds && Reaches(deps, x, s);
        ReverseReaches(deps, rev, x, s);
      }
    }
  }

  /** The crates of the workspace whose forward closure meets a vendored one. */
  ghost function Heavy(ws: Workspace): set<string> {
    set c | c in ws.dir2name.Values && ReachesAny(ws.deps, c, ws.direct)
  }

  /** `vendored_heavy_crates`, after the manifests have been scanned. */
  method VendoredHeavyCrates(ws: Workspace) returns (heavy: set<string>)
    ensures heavy == Heavy(ws)
  {
    heavy := {};
    var todo := ws.dir2name.Values;
    while todo != {}
      invariant todo <= ws.dir2name.Values
      invariant heavy == set c | c in ws.dir2name.Values - todo && ReachesAny(ws.deps, c, ws.direct)
      decreases todo
    {
      var crate :| crate in todo;
      var found := SearchForward(ws.deps, crate, ws.direct);
      if found {
        heavy := heavy + {crate};
      }
      todo := todo - {crate};
    }
  }

  /** The search crate by crate agrees with one reverse closure of the vendored crates. */
  lemma HeavyIsReverseClosure(ws: Workspace)
    ensures Heavy(ws) == DependentsOf(ws.direct, ws.deps) * ws.dir2name.Values
  {
    forall c | c in Heavy(ws) ensures c in DependentsOf(ws.direct, ws.deps) {
      var s :| s in ws.direct && Reaches(ws.deps, c, s);
      ReachesOut(ws.deps, c, s);
    }
  }

  // ---- The decision -----------------------------------------------------------

  datatype Mode = All | Nothing | Subset

  datatype Decision =
    | Decision(mode: Mode, test: set<string>, clippy: set<string>, diskHeavy: bool)
    | Crash

  const EVERYTHING := Decision(All, {}, {}, true)
  const NOTHING := Decision(Nothing, {}, {}, false)

  /** What one run of `detect` reads: the changed files, or `None` when base or
      head cannot be resolved; the manifests; the two locks. */
  datatype Change = Change(
    files: Option<seq<string>>, ws: Workspace,
    baseLock: Option<LockGraph.Parsed>, headLock: Option<LockGraph.Parsed>)

  ghost predicate OwnsChanged(ch: Change, c: string) {
    ch.files.Some? && exists f :: f in ch.files.value && OwnedBy(f, ch.ws.dir2name, c)
  }

  /** `{c for c in (owning_crate(f) ...) if c}`: the empty string is falsy. */
  ghost function OwnerSeeds(ch: Change): set<string> {
    set c | c in ch.ws.dir2name.Values && c != "" && OwnsChanged(ch, c)
  }

  ghost function LockAttribution(ch: Change): LockGraph.Attribution
    requires ch.files.Some?
  {
    if LOCK_PATH in ch.files.value
    then LockGraph.Attribute(ch.baseLock, ch.headLock, ch.ws.dir2name.Values)
    else LockGraph.Affected({})
  }

  ghost function FromSeeds(ws: Workspace, seeds: set<string>): Decision {
    if seeds == {} then NOTHING
    else
      var test := DependentsOf(seeds, ws.deps);
      Decision(Subset, test, seeds, test * Heavy(ws) != {})
  }

  ghost function Detected(ch: Change): Decision {
    if ch.files.None? then EVERYTHING
    else if ch.files.value == [] then NOTHING
    else if exists f :: f in ch.files.value && IsCrossCutting(f) then EVERYTHING
    else Attributed(ch)
  }

  ghost function Attributed(ch: Change): Decision
    requires ch.files.Some?
  {
    match LockAttribution(ch)
    case Unattributable => EVERYTHING
    case Crashed => Crash
    case Affected(members) => FromSeeds(ch.ws, OwnerSeeds(ch) + members)
  }

  method CollectOwners(ch: Change) returns (seeds: set<string>)
    requires ch.files.Some?
    ensures seeds == OwnerSeeds(ch)
  {
    seeds := {};
    var files := ch.files.value;
    var n := 0;
    while n < |files|
      invariant 0 <= n <= |files|
      invariant forall c :: c in seeds <==> c != "" && exists i :: 0 <= i < n && OwnedBy(files[i], ch.ws.dir2name, c)
    {
      var owner := OwningCrate(files[n], ch.ws.dir2name);
      if owner.Some? && owner.value != "" {
        seeds := seeds + {owner.value};
      }
      forall c | owner.Some? && OwnedBy(files[n], ch.ws.dir2name, c) ensures c == owner.value {
        OwnerUnique(files[n], ch.ws.dir2name, c, owner.value);
      }
      n := n + 1;
    }
  }

  method AnyCrossCutting(files: seq<string>) returns (found: bool)
    ensures found <==> exists f :: f in files && IsCrossCutting(f)
  {
    found := false;
    var n := 0;
    while n < |files|
      invariant 0 <= n <= |files|
      invariant found <==> exists f :: f in files[..n] && IsCrossCutting(f)
    {
      assert files[..n + 1] == files[..n] + [files[n]];
      if IsCrossCutting(files[n]) {
        found := true;
      }
      n := n + 1;
    }
    assert files[..n] == files;
  }

  /** The last lines of `detect`. */
  method DecideFromSeeds(ws: Workspace, seeds: set<string>) returns (d: Decision)
    ensures d == FromSeeds(ws, seeds)
  {
    if seeds == {} {
      return NOTHING;
    }
    var test := DependentsClosure(seeds, ws.deps);
    var allHeavy := VendoredHeavyCrates(ws);
    var heavy := test * allHeavy;
    d := Decision(Subset, test, seeds, heavy != {});
  }

  /** `detect` from the point where the files neither force nor rule out a run. */
  method DecideFromChange(ch: Change) returns (d: Decision)
    requires ch.files.Some?
    ensures d == Attributed(ch)
  {
    var seeds := CollectOwners(ch);
    if LOCK_PATH in ch.files.value {
      var lockSeeds := LockGraph.LockAffectedMembers(ch.baseLock, ch.headLock, ch.ws.dir2name.Values);
      if lockSeeds.Unattributable? {
        return EVERYTHING;
      }
      if lockSeeds.Crashed? {
        return Crash;
      }
      seeds := seeds + lockSeeds.members;
    }
    d := DecideFromSeeds(ch.ws, seeds);
  }

  /** `detect`, as far as the four outputs it emits. */
  method Detect(ch: Change) returns (d: Decision)
    ensures d == Detected(ch)
  {
    if ch.files.None? {
      return EVERYTHING;
    }
    if ch.files.value == [] {
      return NOTHING;
    }
    var cross := AnyCrossCutting(ch.files.value);
    if cross {
      return EVERYTHING;
    }
    d := DecideFromChange(ch);
  }

  // ---- Soundness ---------------------------------------------------------------

  /** git's side of the bargain: a lock that is not listed as changed did not
      change, and both locks came out of `_lock_packages`. */
  ghost predicate Faithful(ch: Change) {
    && (ch.files.Some? && LOCK_PATH !in ch.files.value ==> ch.baseLock == ch.headLock)
    && (ch.baseLock.Some? ==> LockGraph.Consistent(ch.baseLock.value))
    && (ch.headLock.Some? ==> LockGraph.Consistent(ch.headLock.value))
  }

  /** The lock entries a crate name stands for have the same subgraph before and after. */
  ghost predicate LockUntouched(ch: Change, c: string) {
    || (ch.baseLock.None? && ch.headLock.None?)
    || (&& ch.baseLock.Some? && ch.headLock.Some?
        && forall m: LockGraph.PackageId ::
             m.name == c && m.source.None? && (m in ch.baseLock.value.deps || m in ch.headLock.value.deps)
             ==> && m in ch.baseLock.value.deps && m in ch.headLock.value.deps
                 && LockGraph.SameSubgraph(ch.baseLock.value, ch.headLock.value, m))
  }

  /** A crate is touched when it owns a changed file or its lock subgraph changed. */
  ghost predicate Untouched(ch: Change, c: string) {
    && !OwnsChanged(ch, c)
    && (c in ch.ws.dir2name.Values ==> LockUntouched(ch, c))
  }

  lemma EqualLocksUntouched(ch: Change, c: string)
    requires Faithful(ch) && ch.baseLock == ch.headLock
    ensures LockUntouched(ch, c)
  {
    if ch.baseLock.Some? {
      var l := ch.baseLock.value;
      forall m: LockGraph.PackageId | m in l.deps ensures LockGraph.SameSubgraph(l, l, m) {
        forall p | Reaches(LockGraph.Edges(l.deps), m, p) ensures LockGraph.SamePackage(l, l, p) {
          LockGraph.ReachesKey(l.deps, m, p);
        }
      }
    }
  }

  lemma OwnersAreMembers(ch: Change, c: string)
    ensures OwnsChanged(ch, c) ==> c in ch.ws.dir2name.Values
  {
  }

  /** A crate that is not a seed is untouched, unless it is nameless and owns a
      changed file. */
  lemma NotSeeded(ch: Change, c: string)
    requires Faithful(ch) && ch.files.Some? && LockAttribution(ch).Affected?
    requires c !in OwnerSeeds(ch) + LockAttribution(ch).members
    ensures Untouched(ch, c) <==> c != "" || !OwnsChanged(ch, "")
  {
    OwnersAreMembers(ch, c);
    if LOCK_PATH !in ch.files.value {
      EqualLocksUntouched(ch, c);
    } else if c in ch.ws.dir2name.Values {
      forall m: LockGraph.PackageId |
        m.name == c && m.source.None? && (m in ch.baseLock.value.deps || m in ch.headLock.value.deps)
        ensures m in ch.baseLock.value.deps && m in ch.headLock.value.deps
        ensures LockGraph.SameSubgraph(ch.baseLock.value, ch.headLock.value, m)
      {
        LockGraph.AttributionSound(ch.baseLock.value, ch.headLock.value, m);
      }
    }
  }

  /** Non-interference: when the selector narrows the run, a crate it leaves out
      of the test set depends, at any distance, only on untouched crates; the one
      exception is a crate with an empty name that owns a changed file. */
  lemma SelectorSound(ch: Change, c: string, x: string)
    requires Faithful(ch)
    requires Detected(ch).Decision? && !Detected(ch).mode.All? && c !in Detected(ch).test
    requires Reaches(ch.ws.deps, c, x)
    ensures Untouched(ch, x) <==> x != "" || !OwnsChanged(ch, "")
  {
    if ch.files.value == [] {
      EqualLocksUntouched(ch, x);
    } else {
      var seeds := OwnerSeeds(ch) + LockAttribution(ch).members;
      ReachesOut(ch.ws.deps, c, x);
      assert x in seeds ==> c in DependentsOf(seeds, ch.ws.deps);
      NotSeeded(ch, x);
    }
  }

  /** And the selection is no larger than it need be: a tested crate depends on
      a crate that owns a changed file or that the lock diff can affect. */
  lemma SelectorPrecise(ch: Change, c: string) returns (x: string)
    requires Faithful(ch)
    requires Detected(ch).Decision? && c in Detected(ch).test
    ensures Reaches(ch.ws.deps, c, x) && x in ch.ws.dir2name.Values && !Untouched(ch, x)
  {
    var seeds := OwnerSeeds(ch) + LockAttribution(ch).members;
    x :| x in seeds && Reaches(ch.ws.deps, c, x);
    if x !in OwnerSeeds(ch) && LockUntouched(ch, x) {
      LockGraph.AttributionPrecise(ch.baseLock.value, ch.headLock.value, x);
    }
  }

  /** Exactly when the whole workspace is tested; the disk is freed then. */
  lemma EverythingExactly(ch: Change)
    ensures Detected(ch).Decision? && Detected(ch).mode.All? <==>
              || ch.files.None?
              || (exists f :: f in ch.files.value && IsCrossCutting(f))
              || ("Cargo.lock" in ch.files.value
                  && (ch.baseLock.None? || ch.headLock.None? || ch.baseLock.value.format != ch.headLock.value.format))
    ensures Detected(ch).Decision? && Detected(ch).mode.All? ==>
              Detected(ch).diskHeavy && Detected(ch).test == {} && Detected(ch).clippy == {}
  {
  }

  /** A crate is a seed when it has a name and owns a changed file, or when the
      lock changed and its name is among the affected members. */
  ghost predicate IsSeed(ch: Change, c: string)
    requires ch.files.Some?
  {
    || (c != "" && OwnsChanged(ch, c))
    || (&& "Cargo.lock" in ch.files.value && c in ch.ws.dir2name.Values
        && ch.baseLock.Some? && ch.headLock.Some?
        && LockGraph.MemberAffected(ch.baseLock.value, ch.headLock.value, c))
  }

  /** Otherwise the lint list is the seeds, the test list everything that depends
      on one, and the mode says whether there are any. */
  lemma ListsExactly(ch: Change)
    requires Detected(ch).Decision? && !Detected(ch).mode.All?
    ensures forall c :: c in Detected(ch).clippy <==> IsSeed(ch, c)
    ensures forall c :: c in Detected(ch).test <==> exists x :: IsSeed(ch, x) && Reaches(ch.ws.deps, c, x)
    ensures Detected(ch).mode.Nothing? <==> Detected(ch).clippy == {}
    ensures Detected(ch).mode.Nothing? ==> Detected(ch).test == {} && !Detected(ch).diskHeavy
  {
    var d := Detected(ch);
    if ch.files.value == [] {
      assert forall c :: !IsSeed(ch, c);
    } else {
      var seeds := OwnerSeeds(ch) + LockAttribution(ch).members;
      forall c ensures c in seeds <==> IsSeed(ch, c) {
        OwnersAreMembers(ch, c);
      }
      assert d.clippy == seeds;
      forall c ensures c in d.test <==> exists x :: IsSeed(ch, x) && Reaches(ch.ws.deps, c, x) {
        if x :| IsSeed(ch, x) && Reaches(ch.ws.deps, c, x) {
          ReachesOut(ch.ws.deps, c, x);
          assert c in DependentsOf(seeds, ch.ws.deps);
        }
      }
    }
  }

  /** The lists that go with the decision. */
  lemma DecisionLists(ch: Change)
    requires Detected(ch).Decision?
    ensures Detected(ch).clippy <= Detected(ch).test
    ensures !Detected(ch).mode.All? ==>
              (Detected(ch).diskHeavy <==>
               exists c, v :: c in Detected(ch).test && c in ch.ws.dir2name.Values
                              && v in ch.ws.direct && Reaches(ch.ws.deps, c, v))
  {
    var d := Detected(ch);
    if d.mode.Subset? {
      forall s | s in d.clippy ensures s in d.test {
        ReachesSelf(ch.ws.deps, s);
      }
      if d.diskHeavy {
        var c :| c in d.test * Heavy(ch.ws);
        var v :| v in ch.ws.direct && Reaches(ch.ws.deps, c, v);
      }
      if c, v :| c in d.test && c in ch.ws.dir2name.Values && v in ch.ws.direct && Reaches(ch.ws.deps, c, v) {
        assert c in d.test * Heavy(ch.ws);
      }
    }
  }

  // ---- Exceptions ----------------------------------------------------------------

  /** The last component of a path without a slash is the path. */
  lemma {:induction false} BaseNameFlat(s: string, component: string, last: string)
    requires '/' !in s
    ensures BaseName(s, component, last) == if Skipped(component + s) then last else component + s
  {
    if s == [] {
      assert component + s == component;
    } else {
      assert component + [s[0]] + s[1..] == component + s;
      BaseNameFlat(s[1..], component + [s[0]], last);
    }
  }

  /** The name of a path with a directory is what follows the last slash. */
  lemma {:induction false} BaseNameMeans(dir: string, name: string, component: string, last: string)
    requires '/' !in name && name != "" && name != "."
    ensures BaseName(dir + "/" + name, component, last) == name
    decreases |dir|
  {
    var s := dir + "/" + name;
    if dir == "" {
      assert s[0] == '/' && s[1..] == name;
      BaseNameFlat(name, "", if Skipped(component) then last else component);
      assert "" + name == name;
    } else {
      assert s[0] == dir[0] && s[1..] == dir[1..] + "/" + name;
      if dir[0] == '/' {
        BaseNameMeans(dir[1..], name, "", if Skipped(component) then last else component);
      } else {
        BaseNameMeans(dir[1..], name, component + [dir[0]], last);
      }
    }
  }

  /** Slashes and dots at the end do not change the name. */
  lemma BaseNameSlash(name: string, component: string, last: string)
    requires '/' !in name && !Skipped(component + name)
    ensures BaseName(name + "/", component, last) == component + name
    decreases |name|
  {
    if name == "" {
      assert name + "/" == "/" && "/"[1..] == "" && component + name == component;
    } else {
      assert (name + "/")[1..] == name[1..] + "/";
      assert component + [name[0]] + name[1..] == component + name;
      BaseNameSlash(name[1..], component + [name[0]], last);
    }
  }

  /** What makes a change cross-cutting: the root manifest, anything under the
      cargo configuration, the vendored trees or the patches. */
  lemma CrossCuttingRoots(rest: string)
    ensures IsCrossCutting("Cargo.toml")
    ensures IsCrossCutting(".cargo/" + rest) && IsCrossCutting("deps/" + rest) && IsCrossCutting("patches/" + rest)
  {
    assert CROSS_PREFIX[0] <= ".cargo/" + rest && CROSS_PREFIX[1] <= "deps/" + rest && CROSS_PREFIX[2] <= "patches/" + rest;
  }

  /** A toolchain file does in whatever directory; `name` is the last component. */
  lemma CrossCuttingNames(dir: string, name: string)
    requires '/' !in name && name != "" && name != "."
    ensures "rust-toolchain" <= name ==> IsCrossCutting(name) && IsCrossCutting(dir + "/" + name)
  {
    BaseNameFlat(name, "", "");
    assert "" + name == name;
    BaseNameMeans(dir, name, "", "");
  }

  /** Nothing else does. */
  lemma NotCrossCutting(dir: string, name: string)
    requires '/' !in name && name != "" && name != "." && !("rust-toolchain" <= name)
    requires var f := dir + "/" + name;
             f != "Cargo.toml" && !(".cargo/" <= f) && !("deps/" <= f) && !("patches/" <= f)
    ensures !IsCrossCutting(dir + "/" + name)
  {
    BaseNameMeans(dir, name, "", "");
    forall i | 0 <= i < |CROSS_PREFIX| ensures !(CROSS_PREFIX[i] <= dir + "/" + name) {
      assert CROSS_PREFIX[i] == ".cargo/" || CROSS_PREFIX[i] == "deps/" || CROSS_PREFIX[i] == "patches/";
    }
  }

  lemma OrdinaryPath()
    ensures !IsCrossCutting("a/x")
  {
    assert "a/x"[1..] == "/x" && "/x"[1..] == "x" && "" + ['a'] == "a";
    BaseNameFlat("x", "", "a");
    assert "" + "x" == "x";
    forall i | 0 <= i < |CROSS_PREFIX| ensures !(CROSS_PREFIX[i] <= "a/x") {
      assert CROSS_PREFIX[i][0] != 'a';
    }
  }

  lemma LockIsNotCrossCutting()
    ensures !IsCrossCutting(LOCK_PATH)
  {
    BaseNameFlat(LOCK_PATH, "", "");
    assert "" + LOCK_PATH == LOCK_PATH;
    assert LOCK_PATH[6] != CROSS_EXACT[6];
    assert LOCK_PATH[0] != TOOLCHAIN_PREFIX[0];
    forall i | 0 <= i < |CROSS_PREFIX| ensures !(CROSS_PREFIX[i] <= LOCK_PATH) {
      assert CROSS_PREFIX[i][0] != LOCK_PATH[0];
    }
  }

  const NAMELESS := Change(Some(["a/x"]), Workspace(map["a" := ""], map[], {}), None, None)

  /** That exception exists: a crate with an empty name owns the changed file, and
      nothing is selected. */
  lemma NamelessOwnerIsDropped()
    ensures Detected(NAMELESS) == NOTHING && OwnsChanged(NAMELESS, "")
  {
    OrdinaryPath();
    assert "a" + "/" <= "a/x";
    assert Deepest(NAMELESS.ws.dir2name.Keys, "a/x", "a");
    assert OwnedBy("a/x", NAMELESS.ws.dir2name, "");
    assert "a/x" in NAMELESS.files.value;
    assert OwnerSeeds(NAMELESS) == {};
  }

  /** Exactly when `detect` ends with an uncaught error: it gets as far as two
      comparable locks, and one of them has a blank dependency string. */
  lemma CrashesExactly(ch: Change)
    ensures Detected(ch).Crash? <==>
              && ch.files.Some? && LOCK_PATH in ch.files.value
              && (forall f :: f in ch.files.value ==> !IsCrossCutting(f))
              && ch.baseLock.Some? && ch.headLock.Some? && ch.baseLock.value.format == ch.headLock.value.format
              && (LockGraph.Malformed(ch.baseLock.value.deps) || LockGraph.Malformed(ch.headLock.value.deps))
  {
  }

  /** Such a change: only the lock file changed, and one entry of it is blank. */
  lemma BlankStringCrashes(format: Option<int>)
    ensures var lock := Some(LockGraph.BlankLock(format));
            Detected(Change(Some([LOCK_PATH]), Workspace(map["a" := "a"], map[], {}), lock, lock)).Crash?
  {
    var lock := Some(LockGraph.BlankLock(format));
    var ch := Change(Some([LOCK_PATH]), Workspace(map["a" := "a"], map[], {}), lock, lock);
    LockIsNotCrossCutting();
    LockGraph.BlankLockIsMalformed(format);
    assert LOCK_PATH in ch.files.value;
    CrashesExactly(ch);
  }
}
