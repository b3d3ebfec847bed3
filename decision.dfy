// Whether a compiled object must be rebuilt: CompileObject.meditate and
// the checks it makes against the hash cache, SourceFile's hashes and the
// change propagation through the construct graph.
module Decision {
  import opened Errors
  import opened Text
  import opened Canonical
  import opened Position
  import opened Chunks
  import opened Segmenter
  import opened SegmenterFacts
  import opened Components
  import opened Graph

  // ---------------------------------------------------------------------
  // Status

  /** The change status of a source, object or target. */
  datatype Status = Unchecked | NoChange | MinorChange | Changed

  /** The IntEnum value of a status; statuses are compared by it. */
  function Value(s: Status): int {
    match s
    case Unchecked => 1
    case NoChange => 2
    case MinorChange => 3
    case Changed => 4
  }

  /** max() of two statuses. */
  function Max(a: Status, b: Status): (m: Status)
    ensures m == a || m == b
    ensures Value(a) <= Value(m) && Value(b) <= Value(m)
  {
    if Value(a) >= Value(b) then a else b
  }

  /** max() of a non-empty collection of statuses: one of them, and no
    * smaller than any. */
  function MaxOf(ss: seq<Status>): (m: Status)
    requires |ss| > 0
    ensures m in ss
    ensures forall i :: 0 <= i < |ss| ==> Value(ss[i]) <= Value(m)
  {
    if |ss| == 1 then ss[0] else Max(ss[0], MaxOf(ss[1..]))
  }

  // ---------------------------------------------------------------------
  // Source files

  /** A source file an object depends on: its path, its text and its
    * modification time. */
  datatype SourceFile = SourceFile(path: string, text: string, mtime: int)

  /** HEADER_EXT */
  const HeaderExts: seq<string> := [".h", ".hpp", ".hh", ".hxx"]

  /** The index of the last c in s, or -1. */
  function LastIndexOf(s: string, c: char): (r: int)
    ensures -1 <= r < |s|
    ensures r >= 0 ==> s[r] == c
    ensures forall j :: r < j < |s| ==> s[j] != c
  {
    if |s| == 0 then -1
    else if s[|s| - 1] == c then |s| - 1
    else LastIndexOf(s[..|s| - 1], c)
  }

  /** Path.name: what follows the last '/'. */
  function BaseName(p: string): string {
    p[LastIndexOf(p, '/') + 1..]
  }

  /** Path.suffix: the name from its last '.', when that dot is neither
    * the first nor the last character of the name; otherwise empty. */
  function Suffix(p: string): string {
    var name := BaseName(p);
    var i := LastIndexOf(name, '.');
    if 0 < i < |name| - 1 then name[i..] else ""
  }

  /** SourceFile.is_header */
  predicate IsHeader(src: SourceFile) {
    Suffix(src.path) in HeaderExts
  }

  /** The last c in s is at k when s[k] is c and no c follows it. */
  lemma {:induction false} LastIndexOfAt(s: string, c: char, k: nat)
    requires k < |s| && s[k] == c && forall j :: k < j < |s| ==> s[j] != c
    ensures LastIndexOf(s, c) == k
    decreases |s|
  {
    if k < |s| - 1 {
      LastIndexOfAt(s[..|s| - 1], c, k);
    }
  }

  /** A file named stem plus a header extension, in any directory, is a
    * header, whatever dots the stem holds. */
  lemma HeaderByExtension(dir: string, stem: string, ext: string)
    requires ext in HeaderExts && |stem| > 0 && '/' !in stem
    ensures IsHeader(SourceFile(dir + "/" + stem + ext, "", 0))
  {
    var name := stem + ext;
    var p := dir + "/" + stem + ext;
    assert p == dir + "/" + name;
    assert '/' !in ext && '.' !in ext[1..] && ext[0] == '.';
    forall j | |dir| < j < |p|
      ensures p[j] != '/'
    {
      assert p[j] == name[j - |dir| - 1];
    }
    LastIndexOfAt(p, '/', |dir|);
    assert BaseName(p) == name;
    forall j | |stem| < j < |name|
      ensures name[j] != '.'
    {
      assert name[j] == ext[1..][j - |stem| - 1];
    }
    LastIndexOfAt(name, '.', |stem|);
    assert |ext| >= 2;
    assert name[|stem|..] == ext;
    assert Suffix(p) == ext;
  }

  /** Only the four header extensions make a header: a header's path ends
    * in one of them, after a name that does not start there. */
  lemma HeaderHasExtension(src: SourceFile)
    ensures IsHeader(src) ==> exists e :: e in HeaderExts && EndsWith(src.path, e) && |e| < |BaseName(src.path)|
  {
    if IsHeader(src) {
      var name := BaseName(src.path);
      var k := LastIndexOf(src.path, '/');
      var i := LastIndexOf(name, '.');
      var e := name[i..];
      assert src.path[|src.path| - |e|..] == e;
    }
  }

  // ---------------------------------------------------------------------
  // The hash cache

  /** What the decision reads besides the sources: the md5 digest of a
    * text (as the number int(hexdigest, 16), and as the hexdigest text)
    * and build_dir.hash_cache, which maps hexdigests to hashes. */
  datatype Env = Env(md5: string -> Digest, hex: string -> string, cache: map<string, int>)

  /** The text construct_hex hashes for the construct name of the object
    * at path obj. */
  function KeyText(obj: string, name: string): string {
    "[" + obj + "][CONSTRUCT][" + name + "]"
  }

  /** construct_hex keys of one object differ for different names, as
    * long as md5 tells the texts apart. */
  lemma KeyTextInjective(obj: string, n1: string, n2: string)
    ensures KeyText(obj, n1) == KeyText(obj, n2) ==> n1 == n2
  {
    if KeyText(obj, n1) == KeyText(obj, n2) {
      var pre := "[" + obj + "][CONSTRUCT][";
      assert KeyText(obj, n1) == pre + n1 + "]";
      assert KeyText(obj, n2) == pre + n2 + "]";
      assert n1 == KeyText(obj, n1)[|pre|..|pre| + |n1|];
    }
  }

  /** The stripped hash of a source file. */
  function StrippedHash(env: Env, src: SourceFile): int {
    StrippedHashOf(env.md5, ReadLines(src.text))
  }

  /** SourceFile.substantive_changes: no hash is cached under the md5 of
    * the file's path (a KeyError), or the cached one differs from the
    * file's stripped hash. */
  predicate Substantive(env: Env, src: SourceFile) {
    var k := env.hex(src.path);
    k !in env.cache || env.cache[k] != StrippedHash(env, src)
  }

  /** SourceFile.remember: the stripped hash stored under the md5 of the
    * path. */
  function RememberSource(env: Env, src: SourceFile): (e: Env)
    ensures e.md5 == env.md5 && e.hex == env.hex
  {
    env.(cache := env.cache[env.hex(src.path) := StrippedHash(env, src)])
  }

  /** After remember, a source whose lines change only by an added blank
    * line has no substantive changes. */
  lemma RememberedEditsNotSubstantive(env: Env, old_: SourceFile, new_: SourceFile, a: seq<string>, w: string, b: seq<string>)
    requires new_.path == old_.path
    requires ReadLines(old_.text) == a + b && ReadLines(new_.text) == a + [w] + b
    requires EndsWith(w, "\n") && forall i :: 0 <= i < |w| ==> IsSpace(w[i])
    ensures !Substantive(RememberSource(env, old_), new_)
  {
    BlankLineInvariance(env.md5, a, w, b);
  }

  // ---------------------------------------------------------------------
  // Change through the construct graph

  /** Every construct's uses resolve without an exception. */
  ghost predicate Resolves(cont: map<string, seq<Part>>, corrected: bool) {
    ContentsOk(cont) && forall n :: n in cont ==> DirectUses(cont[n], cont.Keys, corrected).Ok?
  }

  /** The graph as is_changed sees it: the names of each construct's
    * dependencies, each construct's content hash, and a ranking of the
    * constructs. */
  datatype Snapshot = Snapshot(deps: map<string, set<string>>, sums: map<string, int>, rank: map<string, nat>) {
    /** Every dependency is a construct, every construct has a hash, and
      * each construct ranks above those it depends on, so no construct
      * depends on itself, directly or through others. */
    ghost predicate Ok() {
      deps.Keys <= sums.Keys && Ranked(deps, rank)
    }
  }

  /** Each construct ranks above those it depends on. */
  ghost predicate Ranked(deps: map<string, set<string>>, rank: map<string, nat>) {
    forall n :: n in deps ==> n in rank && forall d :: d in deps[n] ==> d in deps && d in rank && rank[d] < rank[n]
  }

  /** The names of Construct.dependencies of each construct: those its
    * content uses, other than its own. */
  ghost function DepMap(cont: map<string, seq<Part>>, corrected: bool): (deps: map<string, set<string>>)
    requires Resolves(cont, corrected)
    ensures deps.Keys == cont.Keys
    ensures forall n :: n in deps ==> deps[n] <= cont.Keys && n !in deps[n]
  {
    map n | n in cont :: DirectUses(cont[n], cont.Keys, corrected).value - {n}
  }

  /** construct.content_hash of each construct. */
  ghost function Sums(md5: string -> Digest, cont: map<string, seq<Part>>, corrected: bool): (sums: map<string, int>)
    requires ContentsOk(cont)
    ensures sums.Keys == cont.Keys
  {
    map n | n in cont :: ContentSum(md5, cont[n], corrected)
  }

  /** The snapshot of the content create_constructs gave each name. */
  ghost function SnapshotOf(md5: string -> Digest, cont: map<string, seq<Part>>, rank: map<string, nat>, corrected: bool): Snapshot
    requires Resolves(cont, corrected)
  {
    Snapshot(DepMap(cont, corrected), Sums(md5, cont, corrected), rank)
  }

  /** The dependencies s gives the construct named n are those of its
    * content. */
  ghost predicate DepsAt(cont: map<string, seq<Part>>, s: Snapshot, n: string, corrected: bool) {
    && n in cont && PartsOk(cont[n]) && DirectUses(cont[n], cont.Keys, corrected).Ok? && n in s.deps
    && s.deps[n] == DirectUses(cont[n], cont.Keys, corrected).value - {n}
  }

  /** The hash s gives the construct named n is its content hash. */
  ghost predicate SumAt(md5: string -> Digest, cont: map<string, seq<Part>>, s: Snapshot, n: string, corrected: bool) {
    n in cont && PartsOk(cont[n]) && n in s.sums && s.sums[n] == ContentSum(md5, cont[n], corrected)
  }

  /** s holds the dependencies and the hash of each construct of cont. */
  ghost predicate Linked(md5: string -> Digest, cont: map<string, seq<Part>>, s: Snapshot, corrected: bool) {
    && cont.Keys == s.deps.Keys
    && (forall n {:trigger DepsAt(cont, s, n, corrected)} :: n in s.deps ==> DepsAt(cont, s, n, corrected))
    && (forall n {:trigger SumAt(md5, cont, s, n, corrected)} :: n in s.deps ==> SumAt(md5, cont, s, n, corrected))
  }

  lemma SnapshotLinked(md5: string -> Digest, cont: map<string, seq<Part>>, rank: map<string, nat>, corrected: bool)
    requires Resolves(cont, corrected)
    ensures Linked(md5, cont, SnapshotOf(md5, cont, rank, corrected), corrected)
  {
    var s := SnapshotOf(md5, cont, rank, corrected);
    forall n | n in s.deps
      ensures DepsAt(cont, s, n, corrected) && SumAt(md5, cont, s, n, corrected)
    {
    }
  }

  /** The hash cache holds no hash for the construct under its
    * construct_hex key, or one that differs from its content hash. */
  ghost predicate Stale(env: Env, obj: string, s: Snapshot, n: string)
    requires n in s.sums
  {
    var k := env.hex(KeyText(obj, n));
    k !in env.cache || env.cache[k] != s.sums[n]
  }

  /** is_changed: a construct changed when one of its dependencies did,
    * or else when it is stale. */
  ghost predicate ConstructChanged(env: Env, obj: string, s: Snapshot, n: string)
    requires s.Ok() && n in s.deps
    decreases s.rank[n]
  {
    (exists d :: d in s.deps[n] && ConstructChanged(env, obj, s, d)) || Stale(env, obj, s, n)
  }

  /** Some construct under the names ns is changed. */
  ghost predicate AnyChangedIn(env: Env, obj: string, s: Snapshot, ns: set<string>)
    requires s.Ok()
  {
    exists n :: n in ns && n in s.deps && ConstructChanged(env, obj, s, n)
  }

  /** Asking about one more name: the answer grows by that name's. */
  lemma AnyChangedInAdd(env: Env, obj: string, s: Snapshot, ns: set<string>, n: string)
    requires s.Ok() && n in s.deps
    ensures AnyChangedIn(env, obj, s, ns + {n}) == (AnyChangedIn(env, obj, s, ns) || ConstructChanged(env, obj, s, n))
  {
    if AnyChangedIn(env, obj, s, ns + {n}) && !ConstructChanged(env, obj, s, n) {
      var m :| m in ns + {n} && m in s.deps && ConstructChanged(env, obj, s, m);
      assert m in ns;
    }
  }

  /** Asking about more names can only find more changes. */
  lemma AnyChangedInMore(env: Env, obj: string, s: Snapshot, ns: set<string>, more: set<string>)
    requires s.Ok() && ns <= more
    ensures AnyChangedIn(env, obj, s, ns) ==> AnyChangedIn(env, obj, s, more)
  {
  }

  /** m is n or one of its dependencies, directly or through others. */
  ghost predicate Reaches(s: Snapshot, n: string, m: string)
    requires s.Ok() && n in s.deps
    decreases s.rank[n]
  {
    n == m || exists d :: d in s.deps[n] && Reaches(s, d, m)
  }

  lemma {:induction false} ChangedFromStale(env: Env, obj: string, s: Snapshot, n: string)
    requires s.Ok() && n in s.deps
    ensures ConstructChanged(env, obj, s, n) ==> exists m :: m in s.deps && Reaches(s, n, m) && Stale(env, obj, s, m)
    decreases s.rank[n]
  {
    if ConstructChanged(env, obj, s, n) {
      if Stale(env, obj, s, n) {
        assert Reaches(s, n, n);
      } else {
        var d :| d in s.deps[n] && ConstructChanged(env, obj, s, d);
        ChangedFromStale(env, obj, s, d);
        var m :| m in s.deps && Reaches(s, d, m) && Stale(env, obj, s, m);
        assert Reaches(s, n, m);
      }
    }
  }

  lemma {:induction false} StaleMakesChanged(env: Env, obj: string, s: Snapshot, n: string, m: string)
    requires s.Ok() && n in s.deps && m in s.deps
    ensures Reaches(s, n, m) && Stale(env, obj, s, m) ==> ConstructChanged(env, obj, s, n)
    decreases s.rank[n]
  {
    if Reaches(s, n, m) && Stale(env, obj, s, m) && n != m {
      var d :| d in s.deps[n] && Reaches(s, d, m);
      StaleMakesChanged(env, obj, s, d, m);
    }
  }

  /** A construct is changed exactly when it, or a construct it depends on
    * directly or through others, is stale. */
  lemma ChangedIffStaleReachable(env: Env, obj: string, s: Snapshot, n: string)
    requires s.Ok() && n in s.deps
    ensures ConstructChanged(env, obj, s, n) <==> exists m :: m in s.deps && Reaches(s, n, m) && Stale(env, obj, s, m)
  {
    ChangedFromStale(env, obj, s, n);
    forall m | m in s.deps && Reaches(s, n, m) && Stale(env, obj, s, m)
      ensures ConstructChanged(env, obj, s, n)
    {
      StaleMakesChanged(env, obj, s, n, m);
    }
  }

  /** The ranking is only a proof device: is_changed's answer is the same
    * under any ranking of the dependencies. */
  lemma {:induction false} ChangedRankFree(env: Env, obj: string, s: Snapshot, rank: map<string, nat>, n: string)
    requires s.Ok() && s.(rank := rank).Ok() && n in s.deps
    ensures ConstructChanged(env, obj, s, n) == ConstructChanged(env, obj, s.(rank := rank), n)
    decreases s.rank[n]
  {
    forall d | d in s.deps[n]
      ensures ConstructChanged(env, obj, s, d) == ConstructChanged(env, obj, s.(rank := rank), d)
    {
      ChangedRankFree(env, obj, s, rank, d);
    }
  }

  /** When the hash cache holds every construct's current content hash,
    * no construct is changed. */
  lemma {:induction false} RememberedNothingChanged(env: Env, obj: string, s: Snapshot, n: string)
    requires s.Ok() && n in s.deps
    requires forall m :: m in s.deps ==> !Stale(env, obj, s, m)
    ensures !ConstructChanged(env, obj, s, n)
    decreases s.rank[n]
  {
    forall d | d in s.deps[n]
      ensures !ConstructChanged(env, obj, s, d)
    {
      RememberedNothingChanged(env, obj, s, d);
    }
  }

  // ---------------------------------------------------------------------
  // Dependency cycles

  /** p is a walk along dependencies: each name in it is a construct
    * that depends on the next. */
  ghost predicate Walk(deps: map<string, set<string>>, p: seq<string>) {
    forall i :: 0 <= i < |p| - 1 ==> p[i] in deps && p[i + 1] in deps[p[i]]
  }

  /** Along a walk of a ranked graph the rank falls at every step. */
  lemma {:induction false} RankFalls(deps: map<string, set<string>>, rank: map<string, nat>, p: seq<string>)
    requires Ranked(deps, rank) && |p| >= 2 && Walk(deps, p)
    ensures p[0] in rank && p[|p| - 1] in rank && rank[p[|p| - 1]] < rank[p[0]]
  {
    if |p| > 2 {
      assert Walk(deps, p[1..]);
      RankFalls(deps, rank, p[1..]);
    }
  }

  /** As written, is_changed recurses into a construct's dependencies
    * before it records an answer for the construct, so a walk that comes
    * back to where it started never ends. Such a graph has no ranking,
    * and ConstructChanged says nothing about it. */
  lemma CycleUnranked(deps: map<string, set<string>>, rank: map<string, nat>, p: seq<string>)
    requires |p| >= 2 && Walk(deps, p) && p[0] == p[|p| - 1]
    ensures !Ranked(deps, rank)
  {
    if Ranked(deps, rank) {
      RankFalls(deps, rank, p);
    }
  }

  /** Two constructs that use each other (class A holding a B* and class
    * B holding an A*): the dependency map create_constructs gives them
    * has no ranking. */
  lemma MutualUseUnranked(deps: map<string, set<string>>, rank: map<string, nat>)
    requires deps == map["A" := {"B"}, "B" := {"A"}]
    ensures !Ranked(deps, rank)
  {
    CycleUnranked(deps, rank, ["A", "B", "A"]);
  }

  /** Every dependency is a construct and every construct has a hash; no
    * ranking is asked for. */
  ghost predicate Closed(s: Snapshot) {
    s.deps.Keys <= s.sums.Keys && forall n :: n in s.deps ==> s.deps[n] <= s.deps.Keys
  }

  /** The constructs that those under the names seen depend on. */
  ghost function Next(deps: map<string, set<string>>, seen: set<string>): set<string> {
    set n, d | n in seen && n in deps && d in deps[n] && d in deps :: d
  }

  /** The constructs under the names seen, and all they depend on,
    * directly or through others: a walk that stops where it has been
    * before. */
  ghost function Closure(deps: map<string, set<string>>, seen: set<string>): (c: set<string>)
    requires seen <= deps.Keys
    ensures seen <= c <= deps.Keys
    decreases deps.Keys - seen
  {
    var more := seen + Next(deps, seen);
    if more == seen then seen
    else
      Closure(deps, more)
  }

  /** The closure holds what everything in it depends on. */
  lemma {:induction false} ClosureClosed(deps: map<string, set<string>>, seen: set<string>, n: string, d: string)
    requires seen <= deps.Keys && n in Closure(deps, seen) && d in deps[n] && d in deps
    ensures d in Closure(deps, seen)
    decreases deps.Keys - seen
  {
    var more := seen + Next(deps, seen);
    if more != seen {
      ClosureClosed(deps, more, n, d);
    }
  }

  /** The closure is the least set holding seen that holds what its
    * members depend on. */
  lemma {:induction false} ClosureLeast(deps: map<string, set<string>>, seen: set<string>, t: set<string>)
    requires seen <= deps.Keys && seen <= t
    requires forall n, d :: n in t && n in deps && d in deps[n] && d in deps ==> d in t
    ensures Closure(deps, seen) <= t
    decreases deps.Keys - seen
  {
    var more := seen + Next(deps, seen);
    if more != seen {
      ClosureLeast(deps, more, t);
    }
  }

  /** is_changed as intended: a construct is changed exactly when it, or
    * a construct it depends on directly or through others, is stale,
    * whether or not the dependencies loop. */
  ghost predicate ChangedCorrected(env: Env, obj: string, s: Snapshot, n: string)
    requires Closed(s) && n in s.deps
  {
    exists m :: m in Closure(s.deps, {n}) && Stale(env, obj, s, m)
  }

  lemma {:induction false} ReachesStep(s: Snapshot, n: string, x: string, d: string)
    requires s.Ok() && n in s.deps && x in s.deps && Reaches(s, n, x) && d in s.deps[x]
    ensures Reaches(s, n, d)
    decreases s.rank[n]
  {
    if n != x {
      var e :| e in s.deps[n] && Reaches(s, e, x);
      ReachesStep(s, e, x, d);
    }
  }

  lemma {:induction false} ReachesInClosure(s: Snapshot, n: string, m: string)
    requires s.Ok() && n in s.deps && Reaches(s, n, m)
    ensures m in Closure(s.deps, {n})
    decreases s.rank[n]
  {
    if n != m {
      var d :| d in s.deps[n] && Reaches(s, d, m);
      ReachesInClosure(s, d, m);
      ClosureClosed(s.deps, {n}, n, d);
      var t := Closure(s.deps, {n});
      forall x, e | x in t && x in s.deps && e in s.deps[x] && e in s.deps
        ensures e in t
      {
        ClosureClosed(s.deps, {n}, x, e);
      }
      ClosureLeast(s.deps, {d}, t);
    }
  }

  /** On a graph without cycles the closure is what Reaches describes. */
  lemma ClosureIsReach(s: Snapshot, n: string)
    requires s.Ok() && n in s.deps
    ensures forall m :: m in Closure(s.deps, {n}) <==> m in s.deps && Reaches(s, n, m)
  {
    var t := set m | m in s.deps && Reaches(s, n, m);
    forall x, e | x in t && x in s.deps && e in s.deps[x] && e in s.deps
      ensures e in t
    {
      ReachesStep(s, n, x, e);
    }
    ClosureLeast(s.deps, {n}, t);
    forall m | m in s.deps && Reaches(s, n, m)
      ensures m in Closure(s.deps, {n})
    {
      ReachesInClosure(s, n, m);
    }
  }

  /** Where is_changed as written gives an answer, the intended reading
    * gives the same one. */
  lemma ChangedCorrectedAgrees(env: Env, obj: string, s: Snapshot, n: string)
    requires s.Ok() && n in s.deps
    ensures Closed(s) && ChangedCorrected(env, obj, s, n) == ConstructChanged(env, obj, s, n)
  {
    ClosureIsReach(s, n);
    ChangedIffStaleReachable(env, obj, s, n);
  }

  /** For the two constructs that use each other, the intended reading is
    * defined, and either one is changed exactly when one of the two is
    * stale. */
  lemma MutualUseChangedCorrected(env: Env, obj: string, s: Snapshot)
    requires s.deps == map["A" := {"B"}, "B" := {"A"}] && s.deps.Keys <= s.sums.Keys
    ensures Closed(s)
    ensures ChangedCorrected(env, obj, s, "A") <==> Stale(env, obj, s, "A") || Stale(env, obj, s, "B")
  {
    var t := {"A", "B"};
    forall x, e | x in t && x in s.deps && e in s.deps[x] && e in s.deps
      ensures e in t
    {
    }
    ClosureLeast(s.deps, {"A"}, t);
    ClosureClosed(s.deps, {"A"}, "A", "B");
  }

  /** The constructs of the graph under the names u, other than the one
    * under n, are the constructs under the names of u other than n. */
  lemma DepObjects(m: map<string, Construct>, u: set<string>, n: string)
    requires ByName(m) && n in m
    ensures forall d :: d in Objects(m, u) - {m[n]} ==> d.name in u && d.name != n && d.name in m && m[d.name] == d
    ensures forall dn :: dn in u && dn != n && dn in m ==> m[dn] in Objects(m, u) - {m[n]}
  {
    forall d | d in Objects(m, u) - {m[n]}
      ensures d.name in u && d.name != n && d.name in m && m[d.name] == d
    {
      var x :| x in u && x in m && m[x] == d;
    }
  }

  /** The names of a set of constructs. */
  function Names(cs: set<Construct>): set<string> {
    set c | c in cs :: c.name
  }

  lemma NamesStep(all: set<Construct>, todo: set<Construct>, c: Construct)
    requires c in todo && todo <= all
    ensures Names(all - (todo - {c})) == Names(all - todo) + {c.name}
  {
    assert all - (todo - {c}) == (all - todo) + {c};
  }

  // ---------------------------------------------------------------------
  // is_changed

  /** The state of _has_used_content_change while it runs: the graph of
    * constructs, the hash cache, the object's path, and change_cache,
    * the memo of is_changed. cont is the content create_constructs gave
    * each name, snap the snapshot of it; corrected picks the reading of
    * used_constructs and content_hash. */
  class ChangeCheck {
    const graph: ConstructGraph
    const env: Env
    const obj: string
    const corrected: bool
    ghost const cont: map<string, seq<Part>>
    ghost const snap: Snapshot
    var changeCache: map<Construct, bool>

    /** snap is a snapshot of cont. */
    ghost predicate Derived() {
      Linked(env.md5, cont, snap, corrected)
    }

    /** The graph holds cont. */
    ghost predicate Holds()
      reads this, graph, graph.constructs.Values
    {
      && graph.constructs.Keys == snap.deps.Keys
      && forall n :: n in graph.constructs ==>
        && graph.constructs[n].name == n && graph.constructs[n].graph == graph
        && n in cont && graph.constructs[n].content == cont[n]
    }

    /** Each memoised content hash is the construct's own. */
    ghost predicate MemosOk()
      reads this, graph, graph.constructs.Values
    {
      forall n :: n in graph.constructs && n in snap.sums && graph.constructs[n].contentHash.Some? ==>
        graph.constructs[n].contentHash.value == snap.sums[n]
    }

    /** Each memoised answer is is_changed's, for a construct of the graph. */
    ghost predicate AnswersOk()
      reads this, graph
      requires snap.Ok()
    {
      forall c :: c in changeCache ==>
        c.name in snap.deps && c.name in graph.constructs && graph.constructs[c.name] == c
        && changeCache[c] == ConstructChanged(env, obj, snap, c.name)
    }

    ghost predicate Valid()
      reads this, graph, graph.constructs.Values
    {
      snap.Ok() && Holds() && MemosOk() && AnswersOk()
    }

    /** change_cache starts empty, over a graph no hash was asked of. */
    constructor (graph: ConstructGraph, env: Env, obj: string, corrected: bool, ghost cont: map<string, seq<Part>>, ghost snap: Snapshot)
      requires graph.Valid() && graph.NoMemos() && graph.Contents() == cont
      requires snap.Ok() && Linked(env.md5, cont, snap, corrected)
      ensures Valid() && Derived() && changeCache == map[]
      ensures this.graph == graph && this.env == env && this.obj == obj && this.corrected == corrected
      ensures this.cont == cont && this.snap == snap
    {
      this.graph := graph;
      this.env := env;
      this.obj := obj;
      this.corrected := corrected;
      this.cont := cont;
      this.snap := snap;
      changeCache := map[];
      new;
      assert graph.constructs.Keys == cont.Keys;
    }

    /** is_changed(construct): the memoised answer, or else whether some
      * dependency is changed (stopping at the first), or else whether
      * the cached hash differs from the construct's content hash. */
    method IsChanged(c: Construct) returns (r: bool)
      requires Valid() && Derived() && c.name in graph.constructs && graph.constructs[c.name] == c
      modifies this, graph.constructs.Values
      ensures Valid() && r == ConstructChanged(env, obj, snap, c.name)
      ensures c in changeCache && old(changeCache).Keys <= changeCache.Keys
      ensures c in old(changeCache) ==> changeCache == old(changeCache)
      decreases snap.rank[c.name], 1
    {
      if c in changeCache {
        return changeCache[c];
      }
      var deps := FindDeps(c);
      var changed := AnyDepChanged(c, deps);
      if !changed {
        changed := Unsaved(c);
      }
      Remember(c, changed);
      r := changed;
    }

    /** The for loop of is_changed over the dependencies, ending at the
      * first that is changed. */
    method AnyDepChanged(c: Construct, deps: set<Construct>) returns (changed: bool)
      requires Valid() && Derived() && c.name in graph.constructs && graph.constructs[c.name] == c
      requires forall d :: d in deps ==> d.name in snap.deps[c.name] && graph.constructs[d.name] == d
      requires forall dn :: dn in snap.deps[c.name] ==> graph.constructs[dn] in deps
      modifies this, graph.constructs.Values
      ensures Valid() && old(changeCache).Keys <= changeCache.Keys
      ensures changed == AnyChangedIn(env, obj, snap, snap.deps[c.name])
      decreases snap.rank[c.name], 0
    {
      assert Names(deps) == snap.deps[c.name] by {
        forall dn | dn in snap.deps[c.name]
          ensures dn in Names(deps)
        {
          assert graph.constructs[dn] in deps;
        }
      }
      var todo := deps;
      changed := false;
      while todo != {} && !changed
        invariant Valid() && todo <= deps && old(changeCache).Keys <= changeCache.Keys
        invariant changed == AnyChangedIn(env, obj, snap, Names(deps - todo))
        decreases todo
      {
        var d :| d in todo;
        NamesStep(deps, todo, d);
        AnyChangedInAdd(env, obj, snap, Names(deps - todo), d.name);
        changed := IsChanged(d);
        todo := todo - {d};
      }
      AnyChangedInMore(env, obj, snap, Names(deps - todo), Names(deps));
    }

    /** change_cache[construct] = changed */
    method Remember(c: Construct, changed: bool)
      requires Valid() && c.name in graph.constructs && graph.constructs[c.name] == c
      requires changed == ConstructChanged(env, obj, snap, c.name)
      modifies this
      ensures Valid() && changeCache == old(changeCache)[c := changed]
    {
      changeCache := changeCache[c := changed];
    }

    /** construct.dependencies, for a construct of the graph: the
      * constructs stored under the names it depends on. */
    method FindDeps(c: Construct) returns (deps: set<Construct>)
      requires Valid() && Derived() && c.name in graph.constructs && graph.constructs[c.name] == c
      ensures forall d :: d in deps ==> d.name in snap.deps[c.name] && graph.constructs[d.name] == d
      ensures forall dn :: dn in snap.deps[c.name] ==> graph.constructs[dn] in deps
    {
      assert c.name in graph.constructs.Keys;
      assert DepsAt(cont, snap, c.name, corrected);
      assert graph.Valid() by {
        forall n | n in graph.constructs
          ensures PartsOk(graph.constructs[n].content)
        {
          assert DepsAt(cont, snap, n, corrected);
        }
      }
      var r := c.Dependencies(corrected);
      DepObjects(graph.constructs, DirectUses(cont[c.name], cont.Keys, corrected).value, c.name);
      deps := r.value;
    }

    /** The else branch of is_changed: the cached hash is missing (a
      * KeyError), or differs from construct.content_hash. */
    method Unsaved(c: Construct) returns (r: bool)
      requires Valid() && Derived() && c.name in graph.constructs && graph.constructs[c.name] == c
      modifies c
      ensures Valid() && r == Stale(env, obj, snap, c.name)
    {
      var k := env.hex(KeyText(obj, c.name));
      if k !in env.cache {
        return true;
      }
      assert SumAt(env.md5, cont, snap, c.name, corrected);
      var h := c.ContentHash(env.md5, corrected);
      r := env.cache[k] != h;
    }
  }

  // ---------------------------------------------------------------------
  // _has_used_content_change

  /** The stripped lines of each source: what create_constructs and the
    * component walk read. */
  function Files(srcs: seq<SourceFile>): (fs: seq<seq<string>>)
    ensures |fs| == |srcs|
    ensures forall k :: 0 <= k < |fs| ==> fs[k] == StrippedLines(ReadLines(srcs[k].text)) && Shaped(fs[k])
  {
    if |srcs| == 0 then []
    else
      StrippedLinesShaped(srcs[0].text);
      [StrippedLines(ReadLines(srcs[0].text))] + Files(srcs[1..])
  }

  /** The dependencies of the graph built from the sources resolve and
    * are ranked by rank: is_changed terminates. */
  ghost predicate Walkable(srcs: seq<SourceFile>, rank: map<string, nat>, corrected: bool) {
    var g := GraphContent(Files(srcs), map[]);
    g.Ok? ==> Resolves(g.value, corrected) && Ranked(DepMap(g.value, corrected), rank)
  }

  /** One component of a definition file: the exception used_constructs
    * raises, or whether a construct it uses is changed. */
  ghost function ItemChange(env: Env, obj: string, s: Snapshot, ls: seq<string>, comp: Comp, corrected: bool): Result<bool>
    requires s.Ok() && |ls| > 0 && WellBuilt(ls, comp)
  {
    match UsedBy(ls, comp, s.deps.Keys, corrected)
    case Err(e) => Err(e)
    case Ok(u) => Ok(AnyChangedIn(env, obj, s, u))
  }

  /** The inner loops of _has_used_content_change over the components of
    * one definition file, from the i-th on: true at the first component
    * that uses a changed construct; the walk's exception, if any, after
    * the last. */
  ghost function ItemsChange(env: Env, obj: string, s: Snapshot, ls: seq<string>, items: seq<Comp>, i: nat, fail: Option<Error>, corrected: bool): Result<bool>
    requires s.Ok() && Built(ls, items) && i <= |items|
    decreases |items| - i
  {
    if i == |items| then
      if fail.Some? then Err(fail.value) else Ok(false)
    else
      match ItemChange(env, obj, s, ls, items[i], corrected)
      case Err(e) => Err(e)
      case Ok(b) => if b then Ok(true) else ItemsChange(env, obj, s, ls, items, i + 1, fail, corrected)
  }

  /** The inner loops over the components a definition file's walk
    * yields. */
  ghost function FileChange(env: Env, obj: string, s: Snapshot, ls: seq<string>, corrected: bool): Result<bool>
    requires s.Ok() && Shaped(ls)
  {
    var w := FileWalk(ls);
    ItemsChange(env, obj, s, ls, w.items, 0, w.fail, corrected)
  }

  /** The outer loop of _has_used_content_change over the sources from the
    * k-th on: headers are skipped; a definition file with substantive
    * changes, or one of whose components uses a changed construct, gives
    * true. */
  ghost function SourcesChange(env: Env, obj: string, s: Snapshot, srcs: seq<SourceFile>, k: nat, corrected: bool): Result<bool>
    requires s.Ok() && k <= |srcs|
    decreases |srcs| - k
  {
    if k == |srcs| then Ok(false)
    else if IsHeader(srcs[k]) then SourcesChange(env, obj, s, srcs, k + 1, corrected)
    else if Substantive(env, srcs[k]) then Ok(true)
    else
      match FileChange(env, obj, s, Files(srcs)[k], corrected)
      case Err(e) => Err(e)
      case Ok(b) => if b then Ok(true) else SourcesChange(env, obj, s, srcs, k + 1, corrected)
  }

  /** One step of the component loops: a component that uses no changed
    * construct passes on to the next; any other answer ends the loops. */
  lemma ItemsStep(env: Env, obj: string, s: Snapshot, ls: seq<string>, items: seq<Comp>, i: nat, fail: Option<Error>, corrected: bool)
    requires s.Ok() && Built(ls, items) && i < |items|
    ensures var one := ItemChange(env, obj, s, ls, items[i], corrected);
      ItemsChange(env, obj, s, ls, items, i, fail, corrected) == if one == Ok(false) then ItemsChange(env, obj, s, ls, items, i + 1, fail, corrected) else one
  {
  }

  /** One step of the loop over the sources. */
  lemma SourcesStep(env: Env, obj: string, s: Snapshot, srcs: seq<SourceFile>, k: nat, corrected: bool)
    requires s.Ok() && k < |srcs|
    ensures var one := if IsHeader(srcs[k]) then Ok(false) else if Substantive(env, srcs[k]) then Ok(true) else FileChange(env, obj, s, Files(srcs)[k], corrected);
      SourcesChange(env, obj, s, srcs, k, corrected) == if one == Ok(false) then SourcesChange(env, obj, s, srcs, k + 1, corrected) else one
  {
  }

  /** _has_used_content_change of an object at path obj with sources
    * srcs: an exception from create_constructs, or the loops' answer
    * over the graph it built. */
  ghost function UsedChange(env: Env, obj: string, srcs: seq<SourceFile>, rank: map<string, nat>, corrected: bool): Result<bool>
    requires Walkable(srcs, rank, corrected)
  {
    match GraphContent(Files(srcs), map[])
    case Err(e) => Err(e)
    case Ok(cont) => SourcesChange(env, obj, SnapshotOf(env.md5, cont, rank, corrected), srcs, 0, corrected)
  }

  /** _has_code_changes: some source has substantive changes. */
  predicate CodeChanges(env: Env, srcs: seq<SourceFile>) {
    exists k :: 0 <= k < |srcs| && Substantive(env, srcs[k])
  }

  /** sources_modified: the object file is missing, or some source is no
    * older than it. */
  predicate SourcesModified(own: Option<int>, srcs: seq<SourceFile>) {
    own.None? || exists k :: 0 <= k < |srcs| && own.value <= srcs[k].mtime
  }

  /** The status CompileObject.meditate settles on, from whether the
    * sources are newer than the object, whether they changed in code, and
    * what the used-content check gave; a ParsingException counts as a
    * change, any other exception escapes. */
  function ObjectOutcome(modified: bool, code: bool, used: Result<bool>): (r: Result<Status>)
    ensures r.Ok? ==> r.value != Unchecked
  {
    if !modified then Ok(NoChange)
    else if !code then Ok(MinorChange)
    else
      match used
      case Ok(b) => Ok(if b then Changed else MinorChange)
      case Err(e) => if e == ParsingException then Ok(Changed) else Err(e)
  }

  /** An object is rebuilt (CHANGED) exactly when its sources are newer,
    * changed in code, and either a used construct changed or parsing
    * failed; it is left alone (NO_CHANGE) exactly when no source is
    * newer. */
  lemma ObjectOutcomeCases(modified: bool, code: bool, used: Result<bool>)
    ensures ObjectOutcome(modified, code, used) == Ok(Changed) <==>
      modified && code && (used == Ok(true) || used == Err(ParsingException))
    ensures ObjectOutcome(modified, code, used) == Ok(NoChange) <==> !modified
    ensures ObjectOutcome(modified, code, used).Err? <==>
      modified && code && used.Err? && used.error != ParsingException
  {
  }

  /** A compiled object and its status. */
  class CompileObject {
    const path: string
    const sources: seq<SourceFile>
    const mtime: Option<int>        // None when the object file is missing
    const corrected: bool           // used_constructs and content_hash as intended
    ghost const rank: map<string, nat>
    var status: Status
    var touched: bool               // avoid_build ran

    constructor (path: string, sources: seq<SourceFile>, mtime: Option<int>, corrected: bool, ghost rank: map<string, nat>)
      ensures this.path == path && this.sources == sources && this.mtime == mtime
      ensures this.corrected == corrected && this.rank == rank
      ensures status == Unchecked && !touched
    {
      this.path := path;
      this.sources := sources;
      this.mtime := mtime;
      this.corrected := corrected;
      this.rank := rank;
      status := Unchecked;
      touched := false;
    }

    /** _has_code_changes */
    method HasCodeChanges(env: Env) returns (b: bool)
      ensures b == CodeChanges(env, sources)
    {
      for k := 0 to |sources|
        invariant forall j :: 0 <= j < k ==> !Substantive(env, sources[j])
      {
        if Substantive(env, sources[k]) {
          return true;
        }
      }
      return false;
    }

    /** _has_used_content_change: build the graph of constructs, then
      * look through the sources. */
    method HasUsedContentChange(env: Env) returns (r: Result<bool>)
      requires Walkable(sources, rank, corrected)
      ensures r == UsedChange(env, path, sources, rank, corrected)
    {
      var files := Files(sources);
      var made := CreateConstructs(files);
      if made.Err? {
        return Err(made.error);
      }
      var check := NewCheck(made.value, env, path, GraphContent(files, map[]).value, rank, corrected);
      r := ScanSources(check, sources, files);
    }

    /** meditate: NO_CHANGE when no source is newer than the object;
      * otherwise CHANGED when the code and the used content changed or
      * parsing failed, and MINOR_CHANGE with avoid_build when not. */
    method Meditate(env: Env) returns (r: Result<()>)
      requires Walkable(sources, rank, corrected)
      modifies this
      ensures var out := ObjectOutcome(SourcesModified(mtime, sources), CodeChanges(env, sources), UsedChange(env, path, sources, rank, corrected));
        && (r.Ok? <==> out.Ok?)
        && (r.Err? ==> out == Err(r.error) && status == old(status) && touched == old(touched))
        && (r.Ok? ==> status == out.value && touched == (old(touched) || out.value == MinorChange))
    {
      var modified := SourcesModifiedNow();
      if !modified {
        status := NoChange;
        return Ok(());
      }
      var judged := Judge(env);
      if judged.Err? {
        return Err(judged.error);
      }
      status := judged.value;
      if judged.value == MinorChange {
        touched := true;
      }
      return Ok(());
    }

    /** The status meditate settles this object on, or the exception it
      * raises. */
    ghost function Outcome(env: Env): Result<Status>
      requires Walkable(sources, rank, corrected)
    {
      ObjectOutcome(SourcesModified(mtime, sources), CodeChanges(env, sources), UsedChange(env, path, sources, rank, corrected))
    }

    /** sources_modified: the object file is missing, or a source is no
      * older than it. */
    method SourcesModifiedNow() returns (b: bool)
      ensures b == SourcesModified(mtime, sources)
    {
      if mtime.None? {
        return true;
      }
      for k := 0 to |sources|
        invariant forall j :: 0 <= j < k ==> sources[j].mtime < mtime.value
      {
        if mtime.value <= sources[k].mtime {
          return true;
        }
      }
      return false;
    }

    /** The try block of meditate, once the sources are newer than the
      * object: CHANGED when the code changed and so did the used content,
      * or when parsing failed; MINOR_CHANGE otherwise. */
    method Judge(env: Env) returns (r: Result<Status>)
      requires Walkable(sources, rank, corrected)
      ensures r == ObjectOutcome(true, CodeChanges(env, sources), UsedChange(env, path, sources, rank, corrected))
    {
      var code := HasCodeChanges(env);
      if !code {
        return Ok(MinorChange);
      }
      var used := HasUsedContentChange(env);
      if used.Err? {
        if used.error == ParsingException {
          return Ok(Changed);
        }
        return Err(used.error);
      }
      return Ok(if used.value then Changed else MinorChange);
    }
  }

  /** A fresh ChangeCheck over a graph create_constructs made. */
  method NewCheck(g: ConstructGraph, env: Env, obj: string, ghost cont: map<string, seq<Part>>, ghost rank: map<string, nat>, corrected: bool)
    returns (check: ChangeCheck)
    requires g.Valid() && g.NoMemos() && g.Contents() == cont
    requires Resolves(cont, corrected) && Ranked(DepMap(cont, corrected), rank)
    ensures fresh(check) && check.Valid() && check.Derived() && check.graph == g
    ensures check.env == env && check.obj == obj && check.corrected == corrected
    ensures check.snap == SnapshotOf(env.md5, cont, rank, corrected)
  {
    SnapshotLinked(env.md5, cont, rank, corrected);
    check := new ChangeCheck(g, env, obj, corrected, cont, SnapshotOf(env.md5, cont, rank, corrected));
  }

  /** The loop of _has_used_content_change over the sources: headers are
    * skipped; a substantive change, or a component using a changed
    * construct, ends it with true. */
  method ScanSources(check: ChangeCheck, srcs: seq<SourceFile>, files: seq<seq<string>>) returns (r: Result<bool>)
    requires check.Valid() && check.Derived() && files == Files(srcs)
    modifies check, check.graph.constructs.Values
    ensures r == SourcesChange(check.env, check.obj, check.snap, srcs, 0, check.corrected)
  {
    ghost var goal := SourcesChange(check.env, check.obj, check.snap, srcs, 0, check.corrected);
    for k := 0 to |srcs|
      invariant check.Valid()
      invariant goal == SourcesChange(check.env, check.obj, check.snap, srcs, k, check.corrected)
    {
      SourcesStep(check.env, check.obj, check.snap, srcs, k, check.corrected);
      if !IsHeader(srcs[k]) {
        if Substantive(check.env, srcs[k]) {
          return Ok(true);
        }
        var found := ScanFile(check, files[k]);
        if found != Ok(false) {
          return found;
        }
      }
    }
    return Ok(false);
  }

  /** The loops over the components of one definition file. */
  method ScanFile(check: ChangeCheck, ls: seq<string>) returns (r: Result<bool>)
    requires check.Valid() && check.Derived() && Shaped(ls)
    modifies check, check.graph.constructs.Values
    ensures check.Valid()
    ensures r == FileChange(check.env, check.obj, check.snap, ls, check.corrected)
  {
    var w := FileWalk(ls);
    r := ScanItems(check, ls, w.items, w.fail);
  }

  /** The loops over the components of a walk, ending at the first one
    * that uses a changed construct or raises; after the last, the
    * exception that ended the walk, if any. */
  method ScanItems(check: ChangeCheck, ls: seq<string>, items: seq<Comp>, fail: Option<Error>) returns (r: Result<bool>)
    requires check.Valid() && check.Derived() && Shaped(ls) && Built(ls, items)
    modifies check, check.graph.constructs.Values
    ensures check.Valid()
    ensures r == ItemsChange(check.env, check.obj, check.snap, ls, items, 0, fail, check.corrected)
  {
    ghost var goal := ItemsChange(check.env, check.obj, check.snap, ls, items, 0, fail, check.corrected);
    for i := 0 to |items|
      invariant check.Valid()
      invariant goal == ItemsChange(check.env, check.obj, check.snap, ls, items, i, fail, check.corrected)
    {
      ItemsStep(check.env, check.obj, check.snap, ls, items, i, fail, check.corrected);
      r := ScanItem(check, ls, items, i);
      if r != Ok(false) {
        return;
      }
    }
    r := if fail.Some? then Err(fail.value) else Ok(false);
  }

  /** One component: its used_constructs, and whether one of them is
    * changed. */
  method ScanItem(check: ChangeCheck, ls: seq<string>, items: seq<Comp>, i: nat) returns (r: Result<bool>)
    requires check.Valid() && check.Derived() && Shaped(ls) && Built(ls, items) && i < |items|
    modifies check, check.graph.constructs.Values
    ensures check.Valid()
    ensures r == ItemChange(check.env, check.obj, check.snap, ls, items[i], check.corrected)
  {
    var u := UsedConstructs(ls, items[i], check.graph.constructs.Keys, check.corrected);
    if u.Ok? {
      var b := AnyChanged(check, u.value);
      r := Ok(b);
    } else {
      r := Err(u.error);
    }
  }

  /** Whether is_changed holds for some construct of the names, asking in
    * turn and stopping at the first. */
  method AnyChanged(check: ChangeCheck, u: set<string>) returns (b: bool)
    requires check.Valid() && check.Derived() && u <= check.snap.deps.Keys
    modifies check, check.graph.constructs.Values
    ensures check.Valid() && old(check.changeCache).Keys <= check.changeCache.Keys
    ensures b == AnyChangedIn(check.env, check.obj, check.snap, u)
  {
    var todo := u;
    b := false;
    while todo != {} && !b
      invariant check.Valid() && todo <= u && old(check.changeCache).Keys <= check.changeCache.Keys
      invariant b == AnyChangedIn(check.env, check.obj, check.snap, u - todo)
      decreases todo
    {
      var n :| n in todo;
      AnyChangedInAdd(check.env, check.obj, check.snap, u - todo, n);
      assert (u - todo) + {n} == u - (todo - {n});
      b := check.IsChanged(check.graph.constructs[n]);
      todo := todo - {n};
    }
    AnyChangedInMore(check.env, check.obj, check.snap, u - todo, u);
  }
}
