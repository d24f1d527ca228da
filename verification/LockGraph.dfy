/** Attribution of a Cargo.lock diff to workspace members
    (scripts/ci_affected.py, `_lock_packages` to `lock_affected_members`). */
module LockGraph {
  import opened Basics
  import opened Reachability
  import StringOrder

  /** `(name, version, source-or-None)`. */
  datatype PackageId = PackageId(name: string, version: string, source: Option<string>)

  /** One `[[package]]` table as read from TOML; a missing key is `None`. */
  datatype PackageTable = PackageTable(
    name: Option<string>, version: Option<string>, source: Option<string>,
    checksum: Option<string>, dependencies: Option<seq<string>>)

  datatype LockFile = LockFile(format: Option<int>, packages: seq<PackageTable>)

  datatype Fingerprint = Fingerprint(checksum: Option<string>, dependencies: seq<string>)

  type Deps = map<PackageId, seq<string>>

  datatype Parsed = Parsed(format: Option<int>, fingerprints: map<PackageId, Fingerprint>, deps: Deps)

  function IdOf(p: PackageTable): PackageId {
    PackageId(p.name.GetOr(""), p.version.GetOr(""), p.source)
  }

  function FingerprintOf(p: PackageTable): Fingerprint {
    Fingerprint(p.checksum, StringOrder.Sorted(p.dependencies.GetOr([])))
  }

  /** Both dictionaries have the same keys, and a fingerprint determines the
      checksum and the dependency list up to order. */
  ghost predicate Consistent(l: Parsed) {
    && l.fingerprints.Keys == l.deps.Keys
    && forall id :: id in l.deps ==> l.fingerprints[id].dependencies == StringOrder.Sorted(l.deps[id])
  }

  /** What reading the tables from first to last leaves in the dictionaries. */
  ghost function Parse(lock: LockFile): Parsed
    decreases |lock.packages|
  {
    if lock.packages == [] then Parsed(lock.format, map[], map[])
    else
      var p := lock.packages[|lock.packages| - 1];
      Enter(Parse(lock.(packages := lock.packages[..|lock.packages| - 1])), p)
  }

  function Enter(l: Parsed, p: PackageTable): Parsed {
    l.(fingerprints := l.fingerprints[IdOf(p) := FingerprintOf(p)],
       deps := l.deps[IdOf(p) := p.dependencies.GetOr([])])
  }

  lemma {:induction false} ParseConsistent(lock: LockFile)
    ensures Consistent(Parse(lock)) && Parse(lock).format == lock.format
    decreases |lock.packages|
  {
    if lock.packages != [] {
      ParseConsistent(lock.(packages := lock.packages[..|lock.packages| - 1]));
    }
  }

  /** No later table has the id of table `i`. */
  ghost predicate LastOfItsId(packages: seq<PackageTable>, i: nat)
    requires i < |packages|
  {
    forall j :: i < j < |packages| ==> IdOf(packages[j]) != IdOf(packages[i])
  }

  /** A repeated id keeps its last table. */
  lemma {:induction false} ParseKeepsLast(lock: LockFile, i: nat)
    requires i < |lock.packages| && LastOfItsId(lock.packages, i)
    ensures var p := lock.packages[i];
            && IdOf(p) in Parse(lock).deps && Parse(lock).deps[IdOf(p)] == p.dependencies.GetOr([])
            && IdOf(p) in Parse(lock).fingerprints && Parse(lock).fingerprints[IdOf(p)] == FingerprintOf(p)
    decreases |lock.packages|
  {
    var n := |lock.packages| - 1;
    if i < n {
      var shorter := lock.(packages := lock.packages[..n]);
      assert LastOfItsId(shorter.packages, i);
      ParseKeepsLast(shorter, i);
      assert IdOf(lock.packages[n]) != IdOf(lock.packages[i]);
    }
  }

  /** What a table leaves behind when no later one has its name, version and
      source: its checksum, and its dependencies as listed and as a sorted tuple. */
  lemma TableIsKept(lock: LockFile, i: nat)
    requires i < |lock.packages|
    requires forall j :: i < j < |lock.packages| ==>
               || lock.packages[j].name.GetOr("") != lock.packages[i].name.GetOr("")
               || lock.packages[j].version.GetOr("") != lock.packages[i].version.GetOr("")
               || lock.packages[j].source != lock.packages[i].source
    ensures var p := lock.packages[i];
            var id := PackageId(p.name.GetOr(""), p.version.GetOr(""), p.source);
            var l := Parse(lock);
            && id in l.deps && l.deps[id] == p.dependencies.GetOr([])
            && id in l.fingerprints && l.fingerprints[id].checksum == p.checksum
            && multiset(l.fingerprints[id].dependencies) == multiset(p.dependencies.GetOr([]))
  {
    assert LastOfItsId(lock.packages, i);
    ParseKeepsLast(lock, i);
    StringOrder.SortedIsOrderedPermutation(lock.packages[i].dependencies.GetOr([]));
  }

  /** `_lock_packages`, on a lock that could be read. */
  method ParseLock(lock: LockFile) returns (parsed: Parsed)
    ensures parsed == Parse(lock) && Consistent(parsed)
  {
    var fingerprints: map<PackageId, Fingerprint>, deps: Deps := map[], map[];
    var n := 0;
    while n < |lock.packages|
      invariant 0 <= n <= |lock.packages|
      invariant Parsed(lock.format, fingerprints, deps) == Parse(lock.(packages := lock.packages[..n]))
    {
      var p := lock.packages[n];
      fingerprints := fingerprints[IdOf(p) := FingerprintOf(p)];
      deps := deps[IdOf(p) := p.dependencies.GetOr([])];
      assert lock.packages[..n + 1][..n] == lock.packages[..n];
      n := n + 1;
    }
    assert lock.packages[..n] == lock.packages;
    assert lock.(packages := lock.packages[..n]) == lock;
    ParseConsistent(lock);
    parsed := Parsed(lock.format, fingerprints, deps);
  }

  // ---- Dependency strings -------------------------------------------------

  /** The characters `str.split` and `str.strip` treat as whitespace. */
  predicate IsSpace(c: char) {
    var n := c as int;
    || 9 <= n <= 13 || 28 <= n <= 32 || n == 0x85 || n == 0xA0 || n == 0x1680
    || 0x2000 <= n <= 0x200A || n == 0x2028 || n == 0x2029 || n == 0x202F
    || n == 0x205F || n == 0x3000
  }

  /** `str.split()` with the word read so far in `word`. */
  function SplitFrom(s: string, word: string): seq<string> {
    if s == [] then
      if word == [] then [] else [word]
    else if IsSpace(s[0]) then
      (if word == [] then [] else [word]) + SplitFrom(s[1..], [])
    else
      SplitFrom(s[1..], word + [s[0]])
  }

  function Split(s: string): seq<string> {
    SplitFrom(s, [])
  }

  predicate IsParen(c: char) {
    c == '(' || c == ')'
  }

  /** `str.strip("()")`. */
  function StripParens(s: string): string {
    if s == [] then []
    else if IsParen(s[0]) then StripParens(s[1..])
    else if IsParen(s[|s| - 1]) then StripParens(s[..|s| - 1])
    else s
  }

  /** The parts a dependency string provides all agree with `t`. */
  predicate Matches(t: PackageId, parts: seq<string>)
    requires parts != []
  {
    && t.name == parts[0]
    && (|parts| > 1 ==> t.version == parts[1])
    && (|parts| > 2 ==> t.source == Some(StripParens(parts[2])))
  }

  /** The packages of one lock that a dependency string denotes. */
  function Targets(deps: Deps, dep: string): set<PackageId>
  {
    var parts := Split(dep);
    if parts == [] then {} else set t | t in deps && Matches(t, parts)
  }

  /** A blank dependency string: `parts[0]` raises IndexError on it. */
  predicate Blank(dep: string) {
    Split(dep) == []
  }

  ghost predicate Malformed(deps: Deps) {
    exists id, i :: id in deps && 0 <= i < |deps[id]| && Blank(deps[id][i])
  }

  ghost predicate DependsOn(deps: Deps, p: PackageId, t: PackageId) {
    p in deps && exists i :: 0 <= i < |deps[p]| && t in Targets(deps, deps[p][i])
  }

  /** The dependency graph one lock records. */
  ghost function Edges(deps: Deps): Graph<PackageId> {
    map p | p in deps :: set t | t in deps && DependsOn(deps, p, t)
  }

  function Named(ids: set<PackageId>, name: string): set<PackageId> {
    set t | t in ids && t.name == name
  }

  /** `by_name`: every package id filed under its name. */
  method IndexByName(deps: Deps) returns (byName: map<string, set<PackageId>>)
    ensures forall n :: Succ(byName, n) == Named(deps.Keys, n)
  {
    byName := map[];
    var todo := deps.Keys;
    ghost var done: set<PackageId> := {};
    while todo != {}
      invariant done + todo == deps.Keys && done !! todo
      invariant forall n :: Succ(byName, n) == Named(done, n)
      decreases todo
    {
      var pid :| pid in todo;
      ghost var before := byName;
      byName := byName[pid.name := Succ(byName, pid.name) + {pid}];
      forall n ensures Succ(byName, n) == Named(done + {pid}, n) {
        assert Succ(before, n) == Named(done, n);
      }
      todo, done := todo - {pid}, done + {pid};
    }
    assert done == deps.Keys;
  }

  /** The targets of one dependency string, narrowed part by part as it is read. */
  method ResolveTargets(deps: Deps, byName: map<string, set<PackageId>>, dep: string) returns (targets: Option<set<PackageId>>)
    requires forall n :: Succ(byName, n) == Named(deps.Keys, n)
    ensures targets.None? <==> Blank(dep)
    ensures targets.Some? ==> targets.value == Targets(deps, dep)
  {
    var parts := Split(dep);
    if parts == [] {
      return None;
    }
    var found := Succ(byName, parts[0]);
    if |parts| > 1 {
      found := set t | t in found && t.version == parts[1];
    }
    if |parts| > 2 {
      var source := StripParens(parts[2]);
      found := set t | t in found && t.source == Some(source);
    }
    targets := Some(found);
  }

  /** The edges of the packages in `done`, and of the first `n` dependency
      strings of `current`, reversed. */
  ghost predicate RevBuilt(rev: Graph<PackageId>, deps: Deps, done: set<PackageId>, current: seq<PackageId>, n: nat)
    requires done <= deps.Keys && forall p :: p in current ==> p in deps && n <= |deps[p]|
  {
    forall t, p :: p in Succ(rev, t) <==>
      || (p in done && DependsOn(deps, p, t))
      || (p in current && exists i :: 0 <= i < n && t in Targets(deps, deps[p][i]))
  }

  /** The inner loop: the edges of one package, unless one of its strings is blank. */
  method AddDependencies(deps: Deps, byName: map<string, set<PackageId>>, rev0: Graph<PackageId>,
                         ghost done: set<PackageId>, pid: PackageId) returns (result: Option<Graph<PackageId>>)
    requires pid in deps && done <= deps.Keys && RevBuilt(rev0, deps, done, [], 0)
    requires forall n :: Succ(byName, n) == Named(deps.Keys, n)
    ensures result.None? <==> exists i :: 0 <= i < |deps[pid]| && Blank(deps[pid][i])
    ensures result.Some? ==> RevBuilt(result.value, deps, done + {pid}, [], 0)
  {
    var rev := rev0;
    var n := 0;
    while n < |deps[pid]|
      invariant 0 <= n <= |deps[pid]|
      invariant RevBuilt(rev, deps, done, [pid], n)
      invariant forall i :: 0 <= i < n ==> !Blank(deps[pid][i])
    {
      var targets := ResolveTargets(deps, byName, deps[pid][n]);
      if targets.None? {
        return None;
      }
      ghost var before := rev;
      rev := AddEdges(rev, targets.value, pid);
      RevBuiltStep(before, rev, deps, done, pid, n);
      n := n + 1;
    }
    RevBuiltNext(rev, deps, done, pid);
    result := Some(rev);
  }

  /** The reversed lock graph, or `None` when a dependency string is blank. */
  method BuildReverse(deps: Deps) returns (result: Option<Graph<PackageId>>)
    ensures result.None? <==> Malformed(deps)
    ensures result.Some? ==> Reverses(result.value, Edges(deps))
  {
    var byName := IndexByName(deps);
    var rev: Graph<PackageId> := map[];
    var todo := deps.Keys;
    while todo != {}
      invariant todo <= deps.Keys
      invariant RevBuilt(rev, deps, deps.Keys - todo, [], 0)
      invariant forall p, i :: p in deps.Keys - todo && 0 <= i < |deps[p]| ==> !Blank(deps[p][i])
      decreases todo
    {
      var pid :| pid in todo;
      var added := AddDependencies(deps, byName, rev, deps.Keys - todo, pid);
      if added.None? {
        return None;
      }
      rev := added.value;
      assert deps.Keys - (todo - {pid}) == deps.Keys - todo + {pid};
      todo := todo - {pid};
    }
    assert deps.Keys - todo == deps.Keys;
    result := Some(rev);
  }

  lemma RevBuiltStep(before: Graph<PackageId>, after: Graph<PackageId>, deps: Deps, done: set<PackageId>, pid: PackageId, n: nat)
    requires done <= deps.Keys && pid in deps && n < |deps[pid]|
    requires RevBuilt(before, deps, done, [pid], n)
    requires forall t :: Succ(after, t) ==
               if t in Targets(deps, deps[pid][n]) then Succ(before, t) + {pid} else Succ(before, t)
    ensures RevBuilt(after, deps, done, [pid], n + 1)
  {
  }

  lemma RevBuiltNext(rev: Graph<PackageId>, deps: Deps, done: set<PackageId>, pid: PackageId)
    requires done <= deps.Keys && pid in deps
    requires RevBuilt(rev, deps, done, [pid], |deps[pid]|)
    ensures RevBuilt(rev, deps, done + {pid}, [], 0)
  {
  }

  /** `_lock_reverse_reachable`: exactly the packages with a path to one of
      `startIds`, or the IndexError of a blank dependency string. */
  method ReverseReachable(deps: Deps, startIds: set<PackageId>) returns (result: Option<set<PackageId>>)
    ensures result.None? <==> Malformed(deps)
    ensures result.Some? ==> result.value == Dependents(deps, startIds)
  {
    var rev := BuildReverse(deps);
    if rev.None? {
      return None;
    }
    var start := set pid | pid in startIds && pid in deps;
    var reached := Closure(rev.value, start);
    forall x ensures x in reached <==> x in Dependents(deps, startIds) {
      DependentsByReverse(deps, startIds, rev.value, start, x);
    }
    result := Some(reached);
  }

  ghost function Dependents(deps: Deps, startIds: set<PackageId>): set<PackageId> {
    set x | x in deps && ReachesOne(deps, x, startIds)
  }

  /** Some package of `ids` that the lock holds is among what `x` depends on, itself included. */
  ghost predicate ReachesOne(deps: Deps, x: PackageId, ids: set<PackageId>) {
    exists c :: c in ids && c in deps && Reaches(Edges(deps), x, c)
  }

  lemma DependentsByReverse(deps: Deps, ids: set<PackageId>, rev: Graph<PackageId>, start: set<PackageId>, x: PackageId)
    requires Reverses(rev, Edges(deps)) && start == set pid | pid in ids && pid in deps
    ensures ReachedFrom(rev, start, x) <==> x in Dependents(deps, ids)
  {
    if ReachedFrom(rev, start, x) {
      var c :| c in start && Reaches(rev, c, x);
      ReverseReaches(Edges(deps), rev, x, c);
      ReachesKey(deps, x, c);
    }
    if x in Dependents(deps, ids) {
      var c :| c in ids && c in deps && Reaches(Edges(deps), x, c);
      ReverseReaches(Edges(deps), rev, x, c);
    }
  }

  /** Everything on a path that ends in the lock, or starts in it, is in the lock. */
  lemma ReachesKey(deps: Deps, a: PackageId, b: PackageId)
    requires Reaches(Edges(deps), a, b)
    ensures a in deps <==> b in deps
  {
    var path :| IsPath(Edges(deps), path) && Joins(path, a, b);
    if |path| > 1 {
      assert path[0 + 1] in Succ(Edges(deps), path[0]);
      assert path[|path| - 2 + 1] in Succ(Edges(deps), path[|path| - 2]);
    }
  }

  // ---- The longest form of a dependency string is unambiguous --------------

  ghost predicate Word(s: string) {
    s != [] && forall c :: c in s ==> !IsSpace(c)
  }

  lemma {:induction false} SplitWord(w: string, rest: string, acc: string)
    requires forall c :: c in w ==> !IsSpace(c)
    ensures SplitFrom(w + rest, acc) == SplitFrom(rest, acc + w)
  {
    if w == [] {
      assert w + rest == rest && acc + w == acc;
    } else {
      assert (w + rest)[1..] == w[1..] + rest;
      SplitWord(w[1..], rest, acc + [w[0]]);
      assert acc + [w[0]] + w[1..] == acc + w;
    }
  }

  lemma SplitNext(w: string, rest: string)
    requires Word(w)
    ensures SplitFrom(w + [' '] + rest, []) == [w] + SplitFrom(rest, [])
    ensures SplitFrom(w, []) == [w]
  {
    assert w + [' '] + rest == w + ([' '] + rest);
    SplitWord(w, [' '] + rest, []);
    SplitWord(w, [], []);
    assert w + [] == w && [] + w == w && ([' '] + rest)[1..] == rest;
  }

  /** `name version (source)`, the form used when shorter ones are ambiguous, with
      the source of `t` written as its package table has it. */
  ghost function FullForm(t: PackageId): string
    requires t.source.Some?
  {
    t.name + [' '] + (t.version + [' '] + (['('] + t.source.value + [')']))
  }

  /** The longest form denotes its own package and nothing else. */
  lemma FullFormExact(deps: Deps, t: PackageId)
    requires Word(t.name) && Word(t.version) && t.source.Some? && Word(t.source.value)
    requires !IsParen(t.source.value[0]) && !IsParen(t.source.value[|t.source.value| - 1])
    ensures Targets(deps, FullForm(t)) == if t in deps then {t} else {}
  {
    var s := t.source.value;
    var wrapped := ['('] + s + [')'];
    SplitNext(t.name, t.version + [' '] + wrapped);
    SplitNext(t.version, wrapped);
    SplitNext(wrapped, []);
    assert Split(FullForm(t)) == [t.name, t.version, wrapped];
    assert wrapped[1..] == s + [')'] && (s + [')'])[..|s|] == s;
    assert StripParens(s + [')']) == s;
    assert StripParens(wrapped) == s;
  }

  /** A bare name denotes every package of that name. */
  lemma NameDenotesAll(deps: Deps, name: string)
    requires Word(name)
    ensures Targets(deps, name) == set t | t in deps && t.name == name
  {
    SplitNext(name, []);
  }

  /** A name and a version denote the packages that have both, from any source. */
  lemma VersionNarrows(deps: Deps, name: string, version: string)
    requires Word(name) && Word(version)
    ensures Targets(deps, name + " " + version) == set t | t in deps && t.name == name && t.version == version
  {
    SplitNext(name, version);
    SplitNext(version, []);
    assert name + " " + version == name + [' '] + version;
    assert Split(name + " " + version) == [name, version];
  }

  ghost predicate Spaces(s: string) {
    forall c :: c in s ==> IsSpace(c)
  }

  lemma {:induction false} SkipSpaces(gap: string, rest: string)
    requires Spaces(gap)
    ensures SplitFrom(gap + rest, []) == SplitFrom(rest, [])
  {
    if gap == [] {
      assert gap + rest == rest;
    } else {
      assert (gap + rest)[1..] == gap[1..] + rest;
      SkipSpaces(gap[1..], rest);
    }
  }

  /** Any run of whitespace separates two words, and whitespace around them does not count. */
  lemma SplitAtSpaces(before: string, w: string, gap: string, rest: string)
    requires Spaces(before) && Word(w) && Spaces(gap) && gap != []
    ensures Split(before + w + gap + rest) == [w] + Split(rest)
    ensures Split(before + w) == [w]
  {
    assert before + w + gap + rest == before + (w + (gap + rest));
    SkipSpaces(before, w + (gap + rest));
    SplitWord(w, gap + rest, []);
    assert [] + w == w && (gap + rest)[1..] == gap[1..] + rest && (gap + rest)[0] == gap[0];
    SkipSpaces(gap[1..], rest);
    SkipSpaces(before, w);
    SplitWord(w, [], []);
    assert w + [] == w;
  }

  lemma SpaceCharacters()
    ensures IsSpace(' ') && IsSpace('\t') && IsSpace('\n') && IsSpace('\r')
    ensures forall c :: 'a' <= c <= 'z' || 'A' <= c <= 'Z' || '0' <= c <= '9' || c in "-_.+:/()#?=" ==> !IsSpace(c)
  {
  }

  ghost predicate Parens(s: string) {
    forall c :: c in s ==> c == '(' || c == ')'
  }

  lemma OneMoreParen(c: char, before: string, core: string, after: string)
    requires Parens(before) && Parens(after) && IsParen(c)
    ensures [c] + (before + core + after) == ([c] + before) + core + after && Parens([c] + before)
    ensures (before + core + after) + [c] == before + core + (after + [c]) && Parens(after + [c])
  {
  }

  /** Stripping removes parentheses at both ends, all of them, and nothing else. */
  lemma {:induction false} StripParensMeans(s: string) returns (before: string, after: string)
    ensures s == before + StripParens(s) + after && Parens(before) && Parens(after)
    ensures var core := StripParens(s);
            core == [] || (core[0] !in "()" && core[|core| - 1] !in "()")
    decreases |s|
  {
    before, after := [], [];
    if s == [] {
      assert [] + StripParens(s) + [] == s;
    } else if IsParen(s[0]) {
      before, after := StripParensMeans(s[1..]);
      OneMoreParen(s[0], before, StripParens(s[1..]), after);
      before := [s[0]] + before;
    } else if IsParen(s[|s| - 1]) {
      before, after := StripParensMeans(s[..|s| - 1]);
      OneMoreParen(s[|s| - 1], before, StripParens(s[..|s| - 1]), after);
      after := after + [s[|s| - 1]];
    }
  }

  /** A git source's table ends in `#` and a revision, which cargo leaves out of
      dependency strings; such a string does not find its package, and finds
      nothing unless some other package's source is the bare url. */
  lemma RevisionHidesPackage(deps: Deps, t: PackageId, url: string, revision: string)
    requires Word(t.name) && Word(t.version) && Word(url) && t.source == Some(url + "#" + revision)
    requires !IsParen(url[0]) && !IsParen(url[|url| - 1])
    ensures var bare := t.(source := Some(url));
            && t !in Targets(deps, FullForm(bare))
            && (bare !in deps ==> Targets(deps, FullForm(bare)) == {})
  {
    FullFormExact(deps, t.(source := Some(url)));
    assert |url + "#" + revision| > |url|;
  }

  // ---- Attribution --------------------------------------------------------

  /** `changed`: ids in one lock only, or with different fingerprints. */
  function Changed(base: Parsed, head: Parsed): set<PackageId>
  {
    (base.fingerprints.Keys - head.fingerprints.Keys) + (head.fingerprints.Keys - base.fingerprints.Keys)
    + (set id | id in base.fingerprints && id in head.fingerprints && base.fingerprints[id] != head.fingerprints[id])
  }

  datatype Attribution =
    | Unattributable                 // `None`: fall back to the whole workspace
    | Affected(members: set<string>)
    | Crashed                        // uncaught IndexError

  ghost predicate MemberAffected(base: Parsed, head: Parsed, name: string) {
    exists pid: PackageId :: pid.name == name && pid.source.None?
      && (pid in Dependents(base.deps, Changed(base, head)) || pid in Dependents(head.deps, Changed(base, head)))
  }

  ghost function AffectedMembers(base: Parsed, head: Parsed, members: set<string>): set<string> {
    set n | n in members && MemberAffected(base, head, n)
  }

  ghost function Attribute(base: Option<Parsed>, head: Option<Parsed>, members: set<string>): Attribution {
    if base.None? || head.None? || base.value.format != head.value.format then Unattributable
    else if Malformed(base.value.deps) || Malformed(head.value.deps) then Crashed
    else Affected(AffectedMembers(base.value, head.value, members))
  }

  /** The member names among `pids`: the inner loop of `lock_affected_members`. */
  method CollectMembers(pids: set<PackageId>, members: set<string>, affected0: set<string>) returns (affected: set<string>)
    ensures affected == affected0 + set pid | pid in pids && pid.source.None? && pid.name in members :: pid.name
  {
    affected := affected0;
    var todo := pids;
    while todo != {}
      invariant todo <= pids
      invariant affected == affected0 + set pid | pid in pids - todo && pid.source.None? && pid.name in members :: pid.name
      decreases todo
    {
      var pid :| pid in todo;
      if pid.source.None? && pid.name in members {
        affected := affected + {pid.name};
      }
      todo := todo - {pid};
    }
  }

  /** `lock_affected_members`, with the two locks read at the merge base and at head. */
  method LockAffectedMembers(base: Option<Parsed>, head: Option<Parsed>, members: set<string>)
    returns (result: Attribution)
    ensures result == Attribute(base, head, members)
  {
    if base.None? || head.None? || base.value.format != head.value.format {
      return Unattributable;
    }
    var changed := Changed(base.value, head.value);
    var affected := {};
    var inOld := ReverseReachable(base.value.deps, changed);
    if inOld.None? {
      return Crashed;
    }
    affected := CollectMembers(inOld.value, members, affected);
    var inNew := ReverseReachable(head.value.deps, changed);
    if inNew.None? {
      return Crashed;
    }
    affected := CollectMembers(inNew.value, members, affected);
    result := Affected(affected);
  }

  const BLANK_TABLE := PackageTable(Some("a"), Some("1"), None, None, Some([""]))

  /** A lock with one package, whose one dependency string is blank. */
  function BlankLock(format: Option<int>): Parsed {
    Enter(Parsed(format, map[], map[]), BLANK_TABLE)
  }

  /** It is what parsing that one table gives, and attribution crashes on it. */
  lemma BlankLockIsMalformed(format: Option<int>)
    ensures BlankLock(format) == Parse(LockFile(format, [BLANK_TABLE])) && Malformed(BlankLock(format).deps)
    ensures Attribute(Some(BlankLock(format)), Some(BlankLock(format)), {"a"}) == Crashed
  {
    var id := IdOf(BLANK_TABLE);
    var deps := BlankLock(format).deps;
    assert id in deps && |deps[id]| == 1 && Blank(deps[id][0]);
    assert [BLANK_TABLE][..0] == [];
  }

  // ---- Soundness and precision of attribution -----------------------------

  /** What an unaffected member is promised about one package it can reach. */
  ghost predicate SamePackage(base: Parsed, head: Parsed, p: PackageId) {
    && p in base.deps && p in head.deps && p in base.fingerprints && p in head.fingerprints
    && base.fingerprints[p].checksum == head.fingerprints[p].checksum
    && multiset(base.deps[p]) == multiset(head.deps[p])
    && (forall i :: 0 <= i < |head.deps[p]| ==> Targets(base.deps, head.deps[p][i]) == Targets(head.deps, head.deps[p][i]))
    && Edges(base.deps)[p] == Edges(head.deps)[p]
  }

  /** `m` sees the same packages, with the same contents, in both locks. */
  ghost predicate SameSubgraph(base: Parsed, head: Parsed, m: PackageId) {
    && (forall p :: Reaches(Edges(base.deps), m, p) <==> Reaches(Edges(head.deps), m, p))
    && (forall p :: Reaches(Edges(head.deps), m, p) ==> SamePackage(base, head, p))
  }

  lemma ReachableUnchanged(base: Parsed, head: Parsed, m: PackageId, p: PackageId)
    requires Consistent(base) && Consistent(head)
    requires m.source.None? && !MemberAffected(base, head, m.name)
    requires (m in base.deps && Reaches(Edges(base.deps), m, p)) || (m in head.deps && Reaches(Edges(head.deps), m, p))
    ensures p in base.deps && p in head.deps && base.fingerprints[p] == head.fingerprints[p]
  {
    if m in base.deps && Reaches(Edges(base.deps), m, p) {
      ReachesKey(base.deps, m, p);
      assert p in Changed(base, head) ==> m in Dependents(base.deps, Changed(base, head));
    } else {
      ReachesKey(head.deps, m, p);
      assert p in Changed(base, head) ==> m in Dependents(head.deps, Changed(base, head));
    }
  }

  lemma SameTargets(base: Parsed, head: Parsed, m: PackageId, p: PackageId)
    requires Consistent(base) && Consistent(head)
    requires m.source.None? && !MemberAffected(base, head, m.name) && m in base.deps && m in head.deps
    requires Reaches(Edges(base.deps), m, p) && Reaches(Edges(head.deps), m, p)
    ensures SamePackage(base, head, p)
  {
    ReachableUnchanged(base, head, m, p);
    StringOrder.SortedCanonical(base.deps[p], head.deps[p]);
    forall i | 0 <= i < |head.deps[p]|
      ensures Targets(base.deps, head.deps[p][i]) == Targets(head.deps, head.deps[p][i])
    {
      TargetsAgree(base, head, m, p, head.deps[p][i]);
    }
    forall t ensures DependsOn(base.deps, p, t) <==> DependsOn(head.deps, p, t) {
      SameStrings(base.deps[p], head.deps[p]);
      SameStrings(head.deps[p], base.deps[p]);
    }
    assert Edges(base.deps)[p] == Edges(head.deps)[p] by {
      forall t ensures t in Edges(base.deps)[p] <==> t in Edges(head.deps)[p] {
        if DependsOn(base.deps, p, t) {
          assert t in base.deps && t in head.deps;
        }
      }
    }
  }

  lemma SameStrings(a: seq<string>, b: seq<string>)
    requires multiset(a) == multiset(b)
    ensures forall i :: 0 <= i < |a| ==> exists j :: 0 <= j < |b| && b[j] == a[i]
  {
    forall i | 0 <= i < |a| ensures exists j :: 0 <= j < |b| && b[j] == a[i] {
      assert a[i] in multiset(a);
      assert a[i] in multiset(b);
      assert a[i] in b;
    }
  }

  /** A dependency string of a package reached in both graphs denotes the same packages in both. */
  lemma TargetsAgree(base: Parsed, head: Parsed, m: PackageId, p: PackageId, dep: string)
    requires Consistent(base) && Consistent(head)
    requires m.source.None? && !MemberAffected(base, head, m.name) && m in base.deps && m in head.deps
    requires Reaches(Edges(base.deps), m, p) && Reaches(Edges(head.deps), m, p)
    requires p in base.deps && p in head.deps && dep in head.deps[p]
    requires multiset(base.deps[p]) == multiset(head.deps[p])
    ensures Targets(base.deps, dep) == Targets(head.deps, dep)
  {
    assert dep in multiset(base.deps[p]);
    forall t | t in Targets(base.deps, dep) ensures t in Targets(head.deps, dep) {
      assert DependsOn(base.deps, p, t);
      ReachesStep(Edges(base.deps), m, p, t);
      ReachableUnchanged(base, head, m, t);
    }
    forall t | t in Targets(head.deps, dep) ensures t in Targets(base.deps, dep) {
      assert DependsOn(head.deps, p, t);
      ReachesStep(Edges(head.deps), m, p, t);
      ReachableUnchanged(base, head, m, t);
    }
  }

  /** Attribution is sound: a workspace member whose name is not returned has
      the same dependency subgraph, package by package and string by string,
      before and after. */
  lemma AttributionSound(base: Parsed, head: Parsed, m: PackageId)
    requires Consistent(base) && Consistent(head)
    requires m.source.None? && !MemberAffected(base, head, m.name)
    requires m in base.deps || m in head.deps
    ensures m in base.deps && m in head.deps && SameSubgraph(base, head, m)
  {
    var eo, en := Edges(base.deps), Edges(head.deps);
    ReachesSelf(eo, m);
    ReachesSelf(en, m);
    ReachableUnchanged(base, head, m, m);
    var both := set p | p in head.deps && Reaches(eo, m, p) && Reaches(en, m, p);
    forall x | x in both ensures Succ(eo, x) <= both && Succ(en, x) <= both {
      SameTargets(base, head, m, x);
      forall t | t in Succ(en, x) ensures t in both {
        ReachesStep(eo, m, x, t);
        ReachesStep(en, m, x, t);
      }
    }
    forall p ensures Reaches(eo, m, p) <==> Reaches(en, m, p) {
      if Reaches(eo, m, p) {
        ClosedKeepsPaths(eo, both, m, p);
      }
      if Reaches(en, m, p) {
        ClosedKeepsPaths(en, both, m, p);
      }
    }
    forall p | Reaches(en, m, p) ensures SamePackage(base, head, p) {
      SameTargets(base, head, m, p);
    }
  }

  /** A lock with a member that has one dependency string, and another package. */
  function GitLock(m: PackageId, g: PackageId, dep: string): Parsed {
    Parsed(None, map[m := Fingerprint(None, StringOrder.Sorted([dep])), g := Fingerprint(None, [])], map[m := [dep], g := []])
  }

  lemma GitLockConsistent(m: PackageId, g: PackageId, dep: string)
    requires m.source.None? && g.source.Some?
    ensures Consistent(GitLock(m, g, dep))
  {
    assert GitLock(m, g, dep).deps[g] == [] && StringOrder.Sorted([]) == [];
  }

  lemma MoveChanges(m: PackageId, before: PackageId, after: PackageId, dep: string)
    requires m.source.None? && before.source.Some? && after.source.Some? && before != after
    ensures Changed(GitLock(m, before, dep), GitLock(m, after, dep)) == {before, after}
  {
  }

  lemma UnlinkedMoveIsMissed(m: PackageId, before: PackageId, after: PackageId, dep: string)
    requires m.source.None? && before.source.Some? && after.source.Some? && before != after
    requires Targets(GitLock(m, before, dep).deps, dep) == {} && Targets(GitLock(m, after, dep).deps, dep) == {}
    ensures var base, head := GitLock(m, before, dep), GitLock(m, after, dep);
            && Consistent(base) && Consistent(head)
            && before in Changed(base, head) && after in Changed(base, head)
            && !MemberAffected(base, head, m.name)
  {
    var base, head := GitLock(m, before, dep), GitLock(m, after, dep);
    GitLockConsistent(m, before, dep);
    GitLockConsistent(m, after, dep);
    MoveChanges(m, before, after, dep);
    assert m !in {before, after};
    NoEdges(base.deps, m, Changed(base, head));
    NoEdges(head.deps, m, Changed(base, head));
    assert base.deps.Keys == {m, before} && head.deps.Keys == {m, after};
  }

  lemma BareFindsNothing(m: PackageId, g: PackageId, url: string, revision: string)
    requires m.source.None? && g.source == Some(url + "#" + revision)
    requires Word(g.name) && Word(g.version) && Word(url) && !IsParen(url[0]) && !IsParen(url[|url| - 1])
    ensures var dep := FullForm(g.(source := Some(url)));
            Targets(GitLock(m, g, dep).deps, dep) == {}
  {
    var dep := FullForm(g.(source := Some(url)));
    assert |url + "#" + revision| > |url|;
    RevisionHidesPackage(GitLock(m, g, dep).deps, g, url, revision);
  }

  /** What the hidden revision costs: member `m` names its git package by the
      longest form, the package moves to another revision, and `m` is not
      affected.  AttributionSound is about the graph the strings spell out. */
  lemma RevisionMoveIsMissed(m: PackageId, bare: PackageId, from: string, to: string)
    requires Word(bare.name) && Word(bare.version) && bare.source.Some? && Word(bare.source.value)
    requires !IsParen(bare.source.value[0]) && !IsParen(bare.source.value[|bare.source.value| - 1])
    requires m.source.None? && from != to
    ensures var before := bare.(source := Some(bare.source.value + "#" + from));
            var after := bare.(source := Some(bare.source.value + "#" + to));
            var base, head := GitLock(m, before, FullForm(bare)), GitLock(m, after, FullForm(bare));
            && Consistent(base) && Consistent(head)
            && before in Changed(base, head) && after in Changed(base, head)
            && !MemberAffected(base, head, m.name)
  {
    var url := bare.source.value;
    var before := bare.(source := Some(url + "#" + from));
    var after := bare.(source := Some(url + "#" + to));
    assert (url + "#" + from)[|url| + 1..] == from && (url + "#" + to)[|url| + 1..] == to;
    assert before.(source := Some(url)) == bare && after.(source := Some(url)) == bare;
    BareFindsNothing(m, before, url, from);
    BareFindsNothing(m, after, url, to);
    UnlinkedMoveIsMissed(m, before, after, FullForm(bare));
  }

  /** A package whose dependency strings denote nothing depends on itself alone. */
  lemma NoEdges(deps: Deps, m: PackageId, ids: set<PackageId>)
    requires m in deps && forall i :: 0 <= i < |deps[m]| ==> Targets(deps, deps[m][i]) == {}
    requires m !in ids
    ensures m !in Dependents(deps, ids)
  {
    if m in Dependents(deps, ids) {
      var c :| c in ids && c in deps && Reaches(Edges(deps), m, c);
      ClosedKeepsPaths(Edges(deps), {m}, m, c);
    }
  }

  /** Attribution is precise: when every lock entry a member name stands for has
      the same subgraph in both locks, the name is not returned. */
  lemma AttributionPrecise(base: Parsed, head: Parsed, name: string)
    requires Consistent(base) && Consistent(head)
    requires forall m: PackageId :: m.name == name && m.source.None? && (m in base.deps || m in head.deps)
               ==> m in base.deps && m in head.deps && SameSubgraph(base, head, m)
    ensures !MemberAffected(base, head, name)
  {
    if MemberAffected(base, head, name) {
      var changed := Changed(base, head);
      var m: PackageId :| m.name == name && m.source.None?
        && (m in Dependents(base.deps, changed) || m in Dependents(head.deps, changed));
      var c :| c in changed && (Reaches(Edges(base.deps), m, c) || Reaches(Edges(head.deps), m, c));
      assert SamePackage(base, head, c);
      StringOrder.SortedCanonical(base.deps[c], head.deps[c]);
    }
  }

}
