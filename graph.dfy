// The construct graph (ConstructGraph, Construct): every named construct
// with the components that make it up, and the dependencies between
// constructs that their components' used_constructs reveal.
module Graph {
  import opened Errors
  import opened Canonical
  import opened Position
  import opened Chunks
  import opened Segmenter
  import opened SegmenterFacts
  import opened Components

  /** A component, together with the stripped lines of the file it is in. */
  datatype Part = Part(ls: seq<string>, comp: Comp)

  /** A part the parser can have made: its file's stripped lines have their
    * usual shape and are not empty, and its component is well built. */
  predicate PartOk(p: Part) {
    Shaped(p.ls) && |p.ls| > 0 && WellBuilt(p.ls, p.comp)
  }

  predicate PartsOk(ps: seq<Part>) {
    forall i :: 0 <= i < |ps| ==> PartOk(ps[i])
  }

  /** Every name's parts can have been made by the parser. */
  predicate ContentsOk(m: map<string, seq<Part>>) {
    forall n :: n in m ==> PartsOk(m[n])
  }

  /** The components of one file as parts. */
  function Parts(ls: seq<string>, comps: seq<Comp>): (ps: seq<Part>)
    ensures |ps| == |comps| && forall i :: 0 <= i < |ps| ==> ps[i] == Part(ls, comps[i])
  {
    seq(|comps|, i requires 0 <= i < |comps| => Part(ls, comps[i]))
  }

  /** What one component's construct_content gives, as parts. */
  function Lift(ls: seq<string>, m: map<string, seq<Comp>>): (r: map<string, seq<Part>>)
    ensures r.Keys == m.Keys
  {
    map n | n in m :: Parts(ls, m[n])
  }

  lemma LiftOk(ls: seq<string>, m: map<string, seq<Comp>>)
    requires Shaped(ls) && |ls| > 0 && AllBuilt(ls, m)
    ensures ContentsOk(Lift(ls, m))
  {
  }

  /** Merging keeps every part one the parser can have made. */
  lemma MergeOk(a: map<string, seq<Part>>, b: map<string, seq<Part>>)
    requires ContentsOk(a) && ContentsOk(b)
    ensures ContentsOk(Merge(a, b))
  {
    var m := Merge(a, b);
    forall n, i | n in m && 0 <= i < |m[n]|
      ensures PartOk(m[n][i])
    {
      if i >= |Lookup(a, n)| {
        assert m[n][i] == Lookup(b, n)[i - |Lookup(a, n)|];
      }
    }
  }

  // ---------------------------------------------------------------------
  // What a construct uses and hashes to

  /** The union of used_constructs over the parts, in turn.  Here and
    * below, `corrected` picks how used_constructs and content_hash are
    * read: as written (false), or as intended (true), see
    * Components.UsedBy and Chunks.ChunkHash. */
  function DirectUses(ps: seq<Part>, names: set<string>, corrected: bool): (r: Result<set<string>>)
    requires PartsOk(ps)
    ensures r.Ok? ==> r.value <= names
  {
    if |ps| == 0 then Ok({})
    else
      match UsedBy(ps[0].ls, ps[0].comp, names, corrected)
      case Err(e) => Err(e)
      case Ok(u) =>
        match DirectUses(ps[1..], names, corrected)
        case Err(e) => Err(e)
        case Ok(v) => Ok(u + v)
  }

  /** A name is used by a list of parts exactly when some part uses it. */
  lemma DirectUsesMeaning(ps: seq<Part>, names: set<string>, corrected: bool)
    requires PartsOk(ps) && DirectUses(ps, names, corrected).Ok?
    ensures forall i :: 0 <= i < |ps| ==> UsedBy(ps[i].ls, ps[i].comp, names, corrected).Ok?
    ensures forall x :: x in DirectUses(ps, names, corrected).value <==>
      exists i :: 0 <= i < |ps| && x in UsedBy(ps[i].ls, ps[i].comp, names, corrected).value
  {
    DirectUsesCover(ps, names, corrected);
    DirectUsesOnly(ps, names, corrected);
  }

  /** Every part's uses are among the uses of the list. */
  lemma {:induction false} DirectUsesCover(ps: seq<Part>, names: set<string>, corrected: bool)
    requires PartsOk(ps) && DirectUses(ps, names, corrected).Ok?
    ensures forall i :: 0 <= i < |ps| ==>
      UsedBy(ps[i].ls, ps[i].comp, names, corrected).Ok? && UsedBy(ps[i].ls, ps[i].comp, names, corrected).value <= DirectUses(ps, names, corrected).value
  {
    if |ps| > 0 {
      var rest := ps[1..];
      assert PartsOk(rest) by {
        forall i | 0 <= i < |rest| ensures PartOk(rest[i]) {
          assert rest[i] == ps[i + 1];
        }
      }
      DirectUsesCover(rest, names, corrected);
      forall i | 0 < i < |ps|
        ensures UsedBy(ps[i].ls, ps[i].comp, names, corrected).Ok? && UsedBy(ps[i].ls, ps[i].comp, names, corrected).value <= DirectUses(ps, names, corrected).value
      {
        assert ps[i] == rest[i - 1];
      }
    }
  }

  /** Every use of the list is a use of one of its parts. */
  lemma {:induction false} DirectUsesOnly(ps: seq<Part>, names: set<string>, corrected: bool)
    requires PartsOk(ps) && DirectUses(ps, names, corrected).Ok?
    ensures forall x :: x in DirectUses(ps, names, corrected).value ==>
      exists i :: 0 <= i < |ps| && UsedBy(ps[i].ls, ps[i].comp, names, corrected).Ok? && x in UsedBy(ps[i].ls, ps[i].comp, names, corrected).value
  {
    if |ps| > 0 {
      DirectUsesCons(ps, names, corrected);
      DirectUsesOnly(ps[1..], names, corrected);
      DirectUsesOnlyStep(ps, names, corrected);
    }
  }

  /** The uses of a non-empty list are the first part's and the rest's. */
  lemma DirectUsesCons(ps: seq<Part>, names: set<string>, corrected: bool)
    requires PartsOk(ps) && |ps| > 0 && DirectUses(ps, names, corrected).Ok?
    ensures PartsOk(ps[1..]) && UsedBy(ps[0].ls, ps[0].comp, names, corrected).Ok? && DirectUses(ps[1..], names, corrected).Ok?
    ensures DirectUses(ps, names, corrected).value
      == UsedBy(ps[0].ls, ps[0].comp, names, corrected).value + DirectUses(ps[1..], names, corrected).value
  {
    var rest := ps[1..];
    forall i | 0 <= i < |rest| ensures PartOk(rest[i]) {
      assert rest[i] == ps[i + 1];
    }
  }

  /** DirectUsesOnly for a list, given it for the list's tail. */
  lemma DirectUsesOnlyStep(ps: seq<Part>, names: set<string>, corrected: bool)
    requires PartsOk(ps) && |ps| > 0 && UsedBy(ps[0].ls, ps[0].comp, names, corrected).Ok? && DirectUses(ps[1..], names, corrected).Ok?
    requires forall x :: x in DirectUses(ps[1..], names, corrected).value ==>
      exists i :: 0 <= i < |ps[1..]| && UsedBy(ps[1..][i].ls, ps[1..][i].comp, names, corrected).Ok? && x in UsedBy(ps[1..][i].ls, ps[1..][i].comp, names, corrected).value
    ensures forall x :: x in UsedBy(ps[0].ls, ps[0].comp, names, corrected).value + DirectUses(ps[1..], names, corrected).value ==>
      exists i :: 0 <= i < |ps| && UsedBy(ps[i].ls, ps[i].comp, names, corrected).Ok? && x in UsedBy(ps[i].ls, ps[i].comp, names, corrected).value
  {
    var rest := ps[1..];
    var u := UsedBy(ps[0].ls, ps[0].comp, names, corrected).value;
    forall x | x in u + DirectUses(rest, names, corrected).value
      ensures exists i :: 0 <= i < |ps| && UsedBy(ps[i].ls, ps[i].comp, names, corrected).Ok? && x in UsedBy(ps[i].ls, ps[i].comp, names, corrected).value
    {
      if x in u {
        assert x in UsedBy(ps[0].ls, ps[0].comp, names, corrected).value;
      } else {
        var i :| 0 <= i < |rest| && UsedBy(rest[i].ls, rest[i].comp, names, corrected).Ok? && x in UsedBy(rest[i].ls, rest[i].comp, names, corrected).value;
        assert ps[i + 1] == rest[i];
      }
    }
  }

  /** The construct objects of the graph under the names. */
  function Objects(m: map<string, Construct>, ns: set<string>): set<Construct> {
    set n | n in ns && n in m :: m[n]
  }

  /** Every construct of the graph is stored under its own name. */
  predicate ByName(m: map<string, Construct>) {
    forall n :: n in m ==> m[n].name == n
  }

  /** With constructs stored under their names, a construct is among the
    * objects of some names exactly when its name is one of them. */
  lemma ObjectsByName(m: map<string, Construct>, ns: set<string>)
    requires ByName(m)
    ensures forall d :: d in Objects(m, ns) <==> d in m.Values && d.name in ns
  {
    forall d | d in m.Values && d.name in ns
      ensures d in Objects(m, ns)
    {
      var n :| n in m && m[n] == d;
    }
  }

  /** Chunk.content_hash of the chunk of each part's component. */
  function PartHashes(md5: string -> Digest, ps: seq<Part>, corrected: bool): (hs: seq<int>)
    requires PartsOk(ps)
    ensures |hs| == |ps| && forall i :: 0 <= i < |ps| ==> hs[i] == ChunkHash(md5, ps[i].ls, ps[i].comp.chunk, corrected)
  {
    seq(|ps|, i requires 0 <= i < |ps| && PartsOk(ps) => ChunkHash(md5, ps[i].ls, ps[i].comp.chunk, corrected))
  }

  /** Construct.content_hash computed afresh: join_hashes of the content
    * hash of each component's chunk. */
  function ContentSum(md5: string -> Digest, ps: seq<Part>, corrected: bool): int
    requires PartsOk(ps)
  {
    JoinedHash(PartHashes(md5, ps, corrected))
  }

  // ---------------------------------------------------------------------
  // Construct

  /** The code relating to one symbol: its name, its components, the
    * memoised content hash and the graph it belongs to. */
  class Construct {
    const name: string
    var content: seq<Part>
    var contentHash: Option<int>
    var graph: ConstructGraph?

    constructor (name: string, graph: ConstructGraph?)
      ensures this.name == name && this.graph == graph
      ensures content == [] && contentHash == None
    {
      this.name := name;
      this.graph := graph;
      content := [];
      contentHash := None;
    }

    /** add_content: appends the components; a memoised hash is kept as it
      * is, even though the content changed. */
    method AddContent(parts: seq<Part>)
      modifies this
      ensures content == old(content) + parts
      ensures contentHash == old(contentHash) && graph == old(graph)
    {
      content := content + parts;
    }

    /** content_hash: join_hashes of the components' chunk hashes, computed
      * on the first call and remembered after. */
    method ContentHash(md5: string -> Digest, corrected: bool) returns (h: int)
      requires PartsOk(content)
      modifies this
      ensures content == old(content) && graph == old(graph) && contentHash == Some(h)
      ensures old(contentHash).Some? ==> h == old(contentHash).value
      ensures old(contentHash).None? ==> h == ContentSum(md5, content, corrected)
    {
      if contentHash.None? {
        var hs := PartHashes(md5, content, corrected);
        var joined := JoinHashes(hs);
        contentHash := Some(joined);
      }
      h := contentHash.value;
    }

    /** The graph is truthy: ConstructGraph has __len__ and no __bool__,
      * so a graph without constructs counts as no graph. */
    predicate InGraph()
      reads this, graph
    {
      graph != null && |graph.constructs| > 0
    }

    /** _dep_search: unless c was visited, adds to visited every construct of
      * the graph that a component of c's content uses.  The recursive call
      * is made after the construct was added to visited, so it returns at
      * once. */
    method DepSearch(c: Construct, visited: set<Construct>, recurse: bool, corrected: bool) returns (r: Result<set<Construct>>)
      requires graph != null && graph.Valid() && PartsOk(c.content)
      ensures c in visited ==> r == Ok(visited)
      ensures c !in visited ==> r == Found(graph.constructs, c.content, visited, corrected)
      decreases graph.constructs.Values - visited, 1
    {
      if c in visited {
        return Ok(visited);
      }
      var m := graph.constructs;
      var ps := c.content;
      ghost var goal := Found(m, ps, visited, corrected);
      var vis := visited;
      for i := 0 to |ps|
        invariant visited <= vis
        invariant goal == Found(m, ps[i..], vis, corrected)
      {
        var u := UsedConstructs(ps[i].ls, ps[i].comp, m.Keys, corrected);
        FoundStep(m, ps[i..], vis, corrected);
        assert ps[i..][1..] == ps[i + 1..];
        if u.Err? {
          return Err(u.error);
        }
        vis := Visit(u.value, vis, recurse, corrected);
      }
      FoundEmpty(m, vis, corrected);
      return Ok(vis);
    }

    /** The loop of _dep_search over the constructs one component uses:
      * each one not yet visited is added, then searched from when recurse
      * is set. */
    method Visit(u: set<string>, vis: set<Construct>, recurse: bool, corrected: bool) returns (r: set<Construct>)
      requires graph != null && graph.Valid() && u <= graph.constructs.Keys
      ensures r == vis + Objects(graph.constructs, u)
      decreases graph.constructs.Values - vis, 0
    {
      var m := graph.constructs;
      r := vis;
      var todo := u;
      while todo != {}
        invariant todo <= u && vis <= r
        invariant r + Objects(m, todo) == vis + Objects(m, u)
        decreases todo
      {
        var n :| n in todo;
        var dep := m[n];
        ghost var before := r;
        if dep !in r {
          r := r + {dep};
          if recurse {
            assert dep in m.Values;
            var again := DepSearch(dep, r, true, corrected);
            r := again.value;
          }
        }
        VisitStep(m, todo, n, before, r);
        todo := todo - {n};
      }
      ObjectsNone(m);
    }

    /** The dependencies property: the constructs the content uses, without
      * this one; a ValueError when the construct has no (truthy) graph. */
    method Dependencies(corrected: bool) returns (r: Result<set<Construct>>)
      requires graph != null ==> graph.Valid()
      requires PartsOk(content)
      ensures !InGraph() ==> r == Err(ValueError)
      ensures InGraph() ==> r == DepsOf(graph.constructs, content, this, corrected)
    {
      if graph == null || |graph.constructs| == 0 {
        return Err(ValueError);
      }
      var deps := DepSearch(this, {}, false, corrected);
      FoundFromNothing(graph.constructs, content, corrected);
      if deps.Err? {
        return deps;
      }
      return Ok(deps.value - {this});
    }

    /** The recursive_dependencies property: the same search with recursion,
      * then remove(self), a KeyError unless the construct uses itself. */
    method RecursiveDependencies(corrected: bool) returns (r: Result<set<Construct>>)
      requires graph != null ==> graph.Valid()
      requires PartsOk(content)
      ensures !InGraph() ==> r == Err(ValueError)
      ensures InGraph() ==> r == RecursiveDepsOf(graph.constructs, content, this, corrected)
    {
      if graph == null || |graph.constructs| == 0 {
        return Err(ValueError);
      }
      var deps := DepSearch(this, {}, true, corrected);
      FoundFromNothing(graph.constructs, content, corrected);
      if deps.Err? {
        return deps;
      }
      if this !in deps.value {
        return Err(KeyError);
      }
      return Ok(deps.value - {this});
    }
  }

  /** What a search from a construct with content ps adds to visited. */
  function Found(m: map<string, Construct>, ps: seq<Part>, visited: set<Construct>, corrected: bool): Result<set<Construct>>
    requires PartsOk(ps)
  {
    match DirectUses(ps, m.Keys, corrected)
    case Err(e) => Err(e)
    case Ok(u) => Ok(visited + Objects(m, u))
  }

  /** Construct.dependencies of a construct self with content ps. */
  function DepsOf(m: map<string, Construct>, ps: seq<Part>, self: Construct, corrected: bool): Result<set<Construct>>
    requires PartsOk(ps)
  {
    match DirectUses(ps, m.Keys, corrected)
    case Err(e) => Err(e)
    case Ok(u) => Ok(Objects(m, u) - {self})
  }

  /** Construct.recursive_dependencies of a construct self with content ps. */
  function RecursiveDepsOf(m: map<string, Construct>, ps: seq<Part>, self: Construct, corrected: bool): Result<set<Construct>>
    requires PartsOk(ps)
  {
    match DirectUses(ps, m.Keys, corrected)
    case Err(e) => Err(e)
    case Ok(u) => if self in Objects(m, u) then Ok(Objects(m, u) - {self}) else Err(KeyError)
  }

  lemma FoundStep(m: map<string, Construct>, ps: seq<Part>, vis: set<Construct>, corrected: bool)
    requires PartsOk(ps) && |ps| > 0
    ensures PartsOk(ps[1..])
    ensures UsedBy(ps[0].ls, ps[0].comp, m.Keys, corrected).Err? ==>
      Found(m, ps, vis, corrected) == Err(UsedBy(ps[0].ls, ps[0].comp, m.Keys, corrected).error)
    ensures UsedBy(ps[0].ls, ps[0].comp, m.Keys, corrected).Ok? ==>
      Found(m, ps, vis, corrected) == Found(m, ps[1..], vis + Objects(m, UsedBy(ps[0].ls, ps[0].comp, m.Keys, corrected).value), corrected)
  {
    var rest := ps[1..];
    assert PartsOk(rest) by {
      forall i | 0 <= i < |rest| ensures PartOk(rest[i]) {
        assert rest[i] == ps[i + 1];
      }
    }
    match UsedBy(ps[0].ls, ps[0].comp, m.Keys, corrected)
    case Err(e) =>
    case Ok(u) =>
      match DirectUses(rest, m.Keys, corrected)
      case Err(e) =>
      case Ok(v) =>
        assert Objects(m, u + v) == Objects(m, u) + Objects(m, v);
        assert vis + (Objects(m, u) + Objects(m, v)) == (vis + Objects(m, u)) + Objects(m, v);
  }

  /** A search that starts with nothing visited finds the objects of the
    * uses. */
  lemma FoundFromNothing(m: map<string, Construct>, ps: seq<Part>, corrected: bool)
    requires PartsOk(ps)
    ensures DirectUses(ps, m.Keys, corrected).Err? ==> Found(m, ps, {}, corrected) == Err(DirectUses(ps, m.Keys, corrected).error)
    ensures DirectUses(ps, m.Keys, corrected).Ok? ==> Found(m, ps, {}, corrected) == Ok(Objects(m, DirectUses(ps, m.Keys, corrected).value))
  {
    if DirectUses(ps, m.Keys, corrected).Ok? {
      var o := Objects(m, DirectUses(ps, m.Keys, corrected).value);
      assert {} + o == o;
    }
  }

  lemma ObjectsNone(m: map<string, Construct>)
    ensures Objects(m, {}) == {}
  {
  }

  lemma FoundEmpty(m: map<string, Construct>, vis: set<Construct>, corrected: bool)
    ensures Found(m, [], vis, corrected) == Ok(vis)
  {
    var none: set<string> := {};
    assert DirectUses([], m.Keys, corrected) == Ok(none);
    assert Objects(m, none) == {};
    assert vis + Objects(m, none) == vis;
  }

  /** Visiting the construct of one more name. */
  lemma VisitStep(m: map<string, Construct>, todo: set<string>, n: string, vis: set<Construct>, vis2: set<Construct>)
    requires n in todo && n in m && vis2 == vis + {m[n]}
    ensures vis2 + Objects(m, todo - {n}) == vis + Objects(m, todo)
  {
    assert Objects(m, todo) == Objects(m, todo - {n}) + {m[n]};
  }

  // ---------------------------------------------------------------------
  // ConstructGraph

  /** The constructs by name. */
  class ConstructGraph {
    var constructs: map<string, Construct>

    /** Each construct sits under its own name, belongs to this graph and
      * holds components the parser made. */
    ghost predicate Valid()
      reads this, constructs.Values
    {
      forall n :: n in constructs ==>
        constructs[n].name == n && constructs[n].graph == this && PartsOk(constructs[n].content)
    }

    /** The content of each construct, by name. */
    ghost function Contents(): map<string, seq<Part>>
      reads this, constructs.Values
    {
      map n | n in constructs :: constructs[n].content
    }

    constructor ()
      ensures constructs == map[] && Valid()
    {
      constructs := map[];
    }

    /** __getitem__: a KeyError for an unknown name. */
    method Item(name: string) returns (r: Result<Construct>)
      ensures name in constructs ==> r == Ok(constructs[name])
      ensures name !in constructs ==> r == Err(KeyError)
      // Read against the graph's content: a construct exactly for the names
      // that have some, and it is the one of that name with that content.
      ensures Valid() ==> (r.Ok? <==> name in Contents())
      ensures Valid() && r.Ok? ==>
        r.value.name == name && r.value.graph == this && r.value.content == Contents()[name]
    {
      if name in constructs {
        return Ok(constructs[name]);
      }
      return Err(KeyError);
    }

    /** get: the construct of that name; when there is none, a KeyError, or
      * with create a new empty construct of this graph, stored under it. */
    method Get(name: string, create: bool) returns (r: Result<Construct>)
      requires Valid()
      modifies this
      ensures Valid()
      ensures name in old(constructs) ==> r == Ok(old(constructs)[name]) && constructs == old(constructs)
      ensures name !in old(constructs) && !create ==> r == Err(KeyError) && constructs == old(constructs)
      ensures name !in old(constructs) && create ==>
        r.Ok? && fresh(r.value) && constructs == old(constructs)[name := r.value] &&
        r.value.name == name && r.value.content == [] && r.value.contentHash == None && r.value.graph == this
      ensures Contents() == if name in old(constructs) || !create then old(Contents()) else old(Contents())[name := []]
    {
      r := Item(name);
      if r.Err? && create {
        var c := new Construct(name, this);
        constructs := constructs[name := c];
        r := Ok(c);
      }
    }

    /** No construct has memoised its content hash yet. */
    ghost predicate NoMemos()
      reads this, constructs.Values
    {
      forall c :: c in constructs.Values ==> c.contentHash == None
    }

    /** get(name, create=True).add_content(parts): the parts are appended
      * to the content of that name, which is created empty if need be. */
    method Extend(name: string, parts: seq<Part>)
      requires Valid() && PartsOk(parts)
      modifies this, constructs.Values
      ensures Valid()
      ensures Contents() == old(Contents())[name := Lookup(old(Contents()), name) + parts]
      ensures forall c :: c in constructs.Values ==> c in old(constructs.Values) || fresh(c)
      ensures old(NoMemos()) ==> NoMemos()
    {
      ghost var before := Contents();
      var got := Get(name, true);
      var k := got.value;
      ghost var was := Contents();
      assert was == before[name := Lookup(before, name)];
      k.AddContent(parts);
      forall x | x in constructs && x != name
        ensures constructs[x] != k
      {
      }
      assert Contents() == was[name := was[name] + parts];
    }

    /** add: stores the construct under its name and makes this its graph,
      * a ValueError when it already has a (truthy) graph. */
    method Add(c: Construct) returns (r: Result<()>)
      requires Valid() && PartsOk(c.content)
      modifies this, c
      ensures old(c.InGraph()) ==> r == Err(ValueError) && unchanged(this, c)
      ensures !old(c.InGraph()) ==>
        r == Ok(()) && c.graph == this && c.content == old(c.content) && c.contentHash == old(c.contentHash) &&
        constructs == old(constructs)[c.name := c] && Valid()
    {
      if c.graph != null && |c.graph.constructs| > 0 {
        return Err(ValueError);
      }
      c.graph := this;
      constructs := constructs[c.name := c];
      return Ok(());
    }
  }

  // ---------------------------------------------------------------------
  // What the dependencies are

  /** Construct.dependencies of a construct of the graph are the constructs
    * of the graph, other than itself, whose names some component of its
    * content uses (used_constructs leaves out a component's own name). */
  lemma DependenciesMeaning(m: map<string, Construct>, ps: seq<Part>, self: Construct, corrected: bool)
    requires ByName(m) && PartsOk(ps) && DepsOf(m, ps, self, corrected).Ok?
    ensures forall d :: d in DepsOf(m, ps, self, corrected).value <==>
      d in m.Values && d != self &&
      exists i :: 0 <= i < |ps| && UsedBy(ps[i].ls, ps[i].comp, m.Keys, corrected).Ok? && d.name in UsedBy(ps[i].ls, ps[i].comp, m.Keys, corrected).value
  {
    var u := DirectUses(ps, m.Keys, corrected).value;
    DirectUsesMeaning(ps, m.Keys, corrected);
    ObjectsByName(m, u);
  }

  /** As written, recursive_dependencies finds no more than dependencies:
    * when it does not raise, the two are equal, and it raises a KeyError
    * exactly when the construct is not among the constructs its own
    * content uses. */
  lemma RecursiveIsDirect(m: map<string, Construct>, ps: seq<Part>, self: Construct, corrected: bool)
    requires PartsOk(ps) && DirectUses(ps, m.Keys, corrected).Ok?
    ensures RecursiveDepsOf(m, ps, self, corrected).Ok? ==> RecursiveDepsOf(m, ps, self, corrected) == DepsOf(m, ps, self, corrected)
    ensures RecursiveDepsOf(m, ps, self, corrected) == Err(KeyError) <==> self !in Objects(m, DirectUses(ps, m.Keys, corrected).value)
  {
  }

  // ---------------------------------------------------------------------
  // create_constructs

  /** The components source.content.component.recursive_components yields
    * for a file, and the exception that ends the walk early, if any. */
  function FileWalk(ls: seq<string>): (w: Walk)
    requires WellFormed(ls)
    ensures Built(ls, w.items)
  {
    match FileBlock(ls)
    case Err(e) => Walk([], Some(e))
    case Ok(b) => BlockWalk(ls, b)
  }

  /** The components all come from a file with lines and are well built. */
  predicate Built(ls: seq<string>, items: seq<Comp>) {
    forall i :: 0 <= i < |items| ==> |ls| > 0 && WellBuilt(ls, items[i])
  }

  /** The loop of create_constructs over the components of one file, from
    * the j-th on: each one's construct_content added to acc, name by name;
    * after the last, the exception that ended the walk, if any. */
  function FileContent(ls: seq<string>, items: seq<Comp>, j: nat, fail: Option<Error>, acc: map<string, seq<Part>>): Result<map<string, seq<Part>>>
    requires Built(ls, items) && j <= |items|
    decreases |items| - j
  {
    if j == |items| then
      if fail.Some? then Err(fail.value) else Ok(acc)
    else
      match ConstructContent(ls, items[j])
      case Err(e) => Err(e)
      case Ok(m) => FileContent(ls, items, j + 1, fail, Merge(acc, Lift(ls, m)))
  }

  /** create_constructs over the files: the content each name gets. */
  function GraphContent(files: seq<seq<string>>, acc: map<string, seq<Part>>): Result<map<string, seq<Part>>>
    requires forall k :: 0 <= k < |files| ==> Shaped(files[k])
    decreases |files|
  {
    if |files| == 0 then Ok(acc)
    else
      assert Shaped(files[0]);
      var w := FileWalk(files[0]);
      match FileContent(files[0], w.items, 0, w.fail, acc)
      case Err(e) => Err(e)
      case Ok(a) => GraphContent(files[1..], a)
  }

  /** The components a file gives always come from that file and are well
    * built. */
  lemma {:induction false} FileContentOk(ls: seq<string>, items: seq<Comp>, j: nat, fail: Option<Error>, acc: map<string, seq<Part>>)
    requires Shaped(ls) && Built(ls, items) && j <= |items|
    requires ContentsOk(acc) && FileContent(ls, items, j, fail, acc).Ok?
    ensures ContentsOk(FileContent(ls, items, j, fail, acc).value)
    decreases |items| - j
  {
    if j < |items| {
      var m := ConstructContent(ls, items[j]).value;
      LiftOk(ls, m);
      MergeOk(acc, Lift(ls, m));
      FileContentOk(ls, items, j + 1, fail, Merge(acc, Lift(ls, m)));
    }
  }

  /** A name gets content from a file exactly when it had some or some
    * component of the file gives it some. */
  lemma FileContentNames(ls: seq<string>, items: seq<Comp>, j: nat, fail: Option<Error>, acc: map<string, seq<Part>>)
    requires Built(ls, items) && j <= |items| && FileContent(ls, items, j, fail, acc).Ok?
    ensures forall i :: j <= i < |items| ==> ConstructContent(ls, items[i]).Ok?
    ensures forall n :: n in FileContent(ls, items, j, fail, acc).value <==>
      n in acc || exists i :: j <= i < |items| && n in ConstructContent(ls, items[i]).value
  {
    FileContentGives(ls, items, j, fail, acc);
    FileContentKeeps(ls, items, j, fail, acc);
  }

  /** Every name a component of the file gives gets content, and so does
    * every name that had some. */
  lemma {:induction false} FileContentKeeps(ls: seq<string>, items: seq<Comp>, j: nat, fail: Option<Error>, acc: map<string, seq<Part>>)
    requires Built(ls, items) && j <= |items| && FileContent(ls, items, j, fail, acc).Ok?
    ensures forall i :: j <= i < |items| ==> ConstructContent(ls, items[i]).Ok?
    ensures forall n :: n in acc ==> n in FileContent(ls, items, j, fail, acc).value
    ensures forall i, n :: j <= i < |items| && n in ConstructContent(ls, items[i]).value ==>
      n in FileContent(ls, items, j, fail, acc).value
    decreases |items| - j
  {
    if j < |items| {
      var m := ConstructContent(ls, items[j]).value;
      FileContentKeeps(ls, items, j + 1, fail, Merge(acc, Lift(ls, m)));
    }
  }

  /** No other name gets content. */
  lemma {:induction false} FileContentGives(ls: seq<string>, items: seq<Comp>, j: nat, fail: Option<Error>, acc: map<string, seq<Part>>)
    requires Built(ls, items) && j <= |items| && FileContent(ls, items, j, fail, acc).Ok?
    ensures forall n :: n in FileContent(ls, items, j, fail, acc).value ==>
      n in acc || exists i :: j <= i < |items| && ConstructContent(ls, items[i]).Ok? && n in ConstructContent(ls, items[i]).value
    decreases |items| - j
  {
    if j < |items| {
      var m := ConstructContent(ls, items[j]).value;
      FileContentGives(ls, items, j + 1, fail, Merge(acc, Lift(ls, m)));
    }
  }

  /** A function declaration in the walk of create_constructs: a name that
    * raises ends the walk with that exception; otherwise the declaration is
    * appended as the last part under its name, and no other name's content
    * changes. */
  lemma DeclarationStep(ls: seq<string>, items: seq<Comp>, j: nat, fail: Option<Error>, acc: map<string, seq<Part>>)
    requires Built(ls, items) && j < |items|
    requires items[j].kind == FunctionDeclaration || items[j].kind == MemberFunctionDeclaration
    ensures items[j].name.Some?
    ensures items[j].name.value.Err? ==> FileContent(ls, items, j, fail, acc) == Err(items[j].name.value.error)
    ensures items[j].name.value.Ok? ==>
      var n := items[j].name.value.value;
      FileContent(ls, items, j, fail, acc) ==
        FileContent(ls, items, j + 1, fail, acc[n := Lookup(acc, n) + [Part(ls, items[j])]])
  {
    var comp := items[j];
    if comp.name.value.Ok? {
      LiftOne(ls, acc, comp.name.value.value, comp);
    }
  }

  /** Adding {n: [comp]} to acc appends comp's part under n alone. */
  lemma LiftOne(ls: seq<string>, acc: map<string, seq<Part>>, n: string, comp: Comp)
    ensures Merge(acc, Lift(ls, map[n := [comp]])) == acc[n := Lookup(acc, n) + [Part(ls, comp)]]
  {
    var lifted := Lift(ls, map[n := [comp]]);
    assert lifted.Keys == {n};
    assert Parts(ls, [comp]) == [Part(ls, comp)];
    assert lifted == map[n := [Part(ls, comp)]];
    var merged := Merge(acc, lifted);
    var appended := acc[n := Lookup(acc, n) + [Part(ls, comp)]];
    forall k | k in merged
      ensures merged[k] == appended[k]
    {
      if k != n {
        assert Lookup(lifted, k) == [];
        assert merged[k] == Lookup(acc, k) + [];
      }
    }
    assert merged == appended;
  }

  /** The inner loop of create_constructs for one component:
    * graph.get(name, create=True).add_content(content) for each name. */
  method Absorb(g: ConstructGraph, add: map<string, seq<Part>>)
    requires g.Valid() && ContentsOk(add)
    modifies g, g.constructs.Values
    ensures g.Valid() && g.Contents() == Merge(old(g.Contents()), add)
    ensures forall c :: c in g.constructs.Values ==> c in old(g.constructs.Values) || fresh(c)
    ensures old(g.NoMemos()) ==> g.NoMemos()
  {
    ghost var base := g.Contents();
    ghost var start := g.constructs.Values;
    ghost var clean := g.NoMemos();
    var todo := add.Keys;
    assert add - todo == map[];
    MergeNone(base);
    while todo != {}
      invariant todo <= add.Keys
      invariant g.Valid() && g.Contents() == Merge(base, add - todo)
      invariant forall c :: c in g.constructs.Values ==> c in start || fresh(c)
      invariant clean ==> g.NoMemos()
      decreases todo
    {
      var n :| n in todo;
      MergeStep(base, add, todo, n);
      g.Extend(n, add[n]);
      todo := todo - {n};
    }
    assert add - {} == add;
  }

  /** One turn of that loop, for a component whose construct_content is m. */
  lemma FileContentStep(ls: seq<string>, items: seq<Comp>, j: nat, fail: Option<Error>, acc: map<string, seq<Part>>, m: map<string, seq<Comp>>)
    requires Built(ls, items) && j < |items| && ConstructContent(ls, items[j]) == Ok(m)
    ensures FileContent(ls, items, j, fail, acc) == FileContent(ls, items, j + 1, fail, Merge(acc, Lift(ls, m)))
  {
  }

  /** One turn of that loop: construct_content of the component, then each
    * name's content added to the graph. */
  method AddComponent(g: ConstructGraph, ls: seq<string>, comp: Comp) returns (r: Result<map<string, seq<Comp>>>)
    requires Shaped(ls) && |ls| > 0 && WellBuilt(ls, comp)
    requires g.Valid() && ContentsOk(g.Contents())
    modifies g, g.constructs.Values
    ensures r == ConstructContent(ls, comp)
    ensures r.Ok? ==> g.Valid() && g.Contents() == Merge(old(g.Contents()), Lift(ls, r.value))
    ensures r.Ok? ==> ContentsOk(g.Contents())
    ensures forall c :: c in g.constructs.Values ==> c in old(g.constructs.Values) || fresh(c)
    ensures old(g.NoMemos()) ==> g.NoMemos()
  {
    ghost var before := g.Contents();
    r := ConstructContentOf(ls, comp);
    if r.Ok? {
      var add := Lift(ls, r.value);
      LiftOk(ls, r.value);
      MergeOk(before, add);
      Absorb(g, add);
    }
  }

  /** The loop of create_constructs over one file's recursive_components. */
  method AddFile(g: ConstructGraph, ls: seq<string>) returns (r: Result<()>)
    requires Shaped(ls) && g.Valid() && ContentsOk(g.Contents())
    modifies g, g.constructs.Values
    ensures var w := FileWalk(ls);
      var want := FileContent(ls, w.items, 0, w.fail, old(g.Contents()));
      (r.Ok? <==> want.Ok?) && (r.Err? ==> want == Err(r.error)) &&
      (r.Ok? ==> g.Valid() && g.Contents() == want.value && ContentsOk(want.value))
    ensures forall c :: c in g.constructs.Values ==> c in old(g.constructs.Values) || fresh(c)
    ensures old(g.NoMemos()) ==> g.NoMemos()
  {
    var w := FileWalk(ls);
    r := AddItems(g, ls, w.items, w.fail);
  }

  /** The same loop over given components, with the exception that ended
    * the walk, if any. */
  method AddItems(g: ConstructGraph, ls: seq<string>, items: seq<Comp>, fail: Option<Error>) returns (r: Result<()>)
    requires Shaped(ls) && Built(ls, items) && g.Valid() && ContentsOk(g.Contents())
    modifies g, g.constructs.Values
    ensures var want := FileContent(ls, items, 0, fail, old(g.Contents()));
      (r.Ok? <==> want.Ok?) && (r.Err? ==> want == Err(r.error)) &&
      (r.Ok? ==> g.Valid() && g.Contents() == want.value && ContentsOk(want.value))
    ensures forall c :: c in g.constructs.Values ==> c in old(g.constructs.Values) || fresh(c)
    ensures old(g.NoMemos()) ==> g.NoMemos()
  {
    ghost var want := FileContent(ls, items, 0, fail, g.Contents());
    ghost var start := g.constructs.Values;
    ghost var clean := g.NoMemos();
    ghost var acc := g.Contents();
    for j := 0 to |items|
      invariant g.Valid() && g.Contents() == acc && ContentsOk(acc)
      invariant want == FileContent(ls, items, j, fail, acc)
      invariant forall c :: c in g.constructs.Values ==> c in start || fresh(c)
      invariant clean ==> g.NoMemos()
    {
      var cc := AddComponent(g, ls, items[j]);
      if cc.Err? {
        return Err(cc.error);
      }
      FileContentStep(ls, items, j, fail, acc, cc.value);
      acc := Merge(acc, Lift(ls, cc.value));
    }
    if fail.Some? {
      return Err(fail.value);
    }
    return Ok(());
  }

  /** create_constructs: a new graph, filled file by file and component by
    * component; an exception from the walk or from construct_content ends
    * it. */
  method CreateConstructs(files: seq<seq<string>>) returns (r: Result<ConstructGraph>)
    requires forall k :: 0 <= k < |files| ==> Shaped(files[k])
    ensures r.Ok? <==> GraphContent(files, map[]).Ok?
    ensures r.Err? ==> GraphContent(files, map[]) == Err(r.error)
    ensures r.Ok? ==> fresh(r.value) && r.value.Valid() && r.value.Contents() == GraphContent(files, map[]).value
    ensures r.Ok? ==> r.value.NoMemos() && forall c :: c in r.value.constructs.Values ==> fresh(c)
  {
    var g := new ConstructGraph();
    for k := 0 to |files|
      invariant fresh(g) && g.Valid() && ContentsOk(g.Contents()) && g.NoMemos()
      invariant forall c :: c in g.constructs.Values ==> fresh(c)
      invariant GraphContent(files, map[]) == GraphContent(files[k..], g.Contents())
    {
      assert files[k..][1..] == files[k + 1..];
      assert Shaped(files[k..][0]);
      var added := AddFile(g, files[k]);
      if added.Err? {
        return Err(added.error);
      }
    }
    return Ok(g);
  }
}
