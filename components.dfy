/*
 * What the rest of the program asks of a component: its sub-components
 * and its recursive_components, the tokens it reads, the constructs it
 * uses (used_constructs), and the content it gives to constructs
 * (construct_content, merged by update_content).
 *
 * A name or a block that a constructor computes lazily keeps its error,
 * and an operation that reaches it raises that error; a generator
 * (recursive_components) yields what it found before an error.
 */
module Components {
  import opened Errors
  import opened Text
  import opened Position
  import opened Chunks
  import opened Segmenter
  import opened SegmenterFacts

  // ---------------------------------------------------------------------
  // Blocks and sub-components

  /** SourceContent.component: the whole stripped text, stripped, as a
    * block in global scope.  No line is IndexError; nothing but
    * whitespace is the ValueError of strip. */
  function FileBlock(ls: seq<string>): (r: Result<Block>)
    requires WellFormed(ls)
    ensures r.Ok? ==> |ls| > 0 && Valid(ls, r.value.chunk) && r.value.scope == Global
  {
    match WholeChunk(ls)
    case Err(e) => Err(e)
    case Ok(c) =>
      match StrippedChunk(ls, c)
      case Err(e) => Err(e)
      case Ok(d) => StrippedChunkInside(ls, c); Ok(Block(d, Global))
  }

  /** All of comps are well built and start at or after pos. */
  predicate After(ls: seq<string>, comps: seq<Comp>, pos: nat) {
    forall i :: 0 <= i < |comps| ==> WellBuilt(ls, comps[i]) && pos <= Lo(ls, comps[i].chunk)
  }

  /** The sub_components of a component's inner block: each starts after
    * the block's '{', so after the component's own start. */
  function InnerComponents(ls: seq<string>, comp: Comp): (r: Result<seq<Comp>>)
    requires |ls| > 0 && WellBuilt(ls, comp) && comp.inner.Some?
    ensures r.Ok? ==> After(ls, r.value, Lo(ls, comp.chunk) + 1)
  {
    var b := comp.inner.value;
    var r := SubComponents(ls, b);
    if r.Ok? then
      SubComponentsLaid(ls, b);
      LaidOrdered(ls, b.scope, r.value, WalkStart(ls, b.chunk), WalkStop(ls, b.chunk));
      r
    else r
  }

  /** Component.sub_components: a namespace's and a control block's are
    * those of their block; every other class has none (the definitions
    * of functions and classes keep their inner components to themselves). */
  function SubsOf(ls: seq<string>, comp: Comp): (r: Result<seq<Comp>>)
    requires |ls| > 0 && WellBuilt(ls, comp)
    ensures r.Ok? ==> After(ls, r.value, Lo(ls, comp.chunk) + 1)
    ensures comp.kind != Namespace && comp.kind != ControlBlock ==> r == Ok([])
  {
    if comp.kind == Namespace || comp.kind == ControlBlock then InnerComponents(ls, comp)
    else Ok([])
  }

  /** What iterating a generator gives: the components it yielded, then
    * the exception that ended the iteration, if one did. */
  datatype Walk = Walk(items: seq<Comp>, fail: Option<Error>)

  /** One generator run after another: the second runs only when the first
    * ended without an exception. */
  function Then(w: Walk, rest: Walk): (r: Walk)
    ensures w.fail.Some? ==> r == w
    ensures w.fail.None? ==> r.items == w.items + rest.items && r.fail == rest.fail
  {
    if w.fail.Some? then w else Walk(w.items + rest.items, rest.fail)
  }

  /** recursive_components over the components comps, in turn: each
    * component, then its own recursive_components.  Everything yielded is
    * well built and starts at or after pos. */
  function RecursiveAll(ls: seq<string>, comps: seq<Comp>, ghost pos: nat): (w: Walk)
    requires |ls| > 0 && After(ls, comps, pos)
    ensures After(ls, w.items, pos)
    decreases Total(ls) - pos, |comps|
  {
    if |comps| == 0 then Walk([], None)
    else
      var c := comps[0];
      var below := match SubsOf(ls, c)
                   case Err(e) => Walk([], Some(e))
                   case Ok(subs) => RecursiveAll(ls, subs, Lo(ls, c.chunk) + 1);
      var rest := RecursiveAll(ls, comps[1..], pos);
      AfterWalk(ls, c, below, rest, pos);
      Then(Walk([c], None), Then(below, rest))
  }

  /** A component, its own walk and the walk of the components after it
    * all start at or after pos. */
  lemma AfterWalk(ls: seq<string>, c: Comp, below: Walk, rest: Walk, pos: nat)
    requires WellBuilt(ls, c) && pos <= Lo(ls, c.chunk)
    requires After(ls, below.items, Lo(ls, c.chunk) + 1) && After(ls, rest.items, pos)
    ensures After(ls, Then(Walk([c], None), Then(below, rest)).items, pos)
  {
    var tail := Then(below, rest).items;
    assert After(ls, tail, pos) by {
      if below.fail.None? {
        forall i | 0 <= i < |tail|
          ensures WellBuilt(ls, tail[i]) && pos <= Lo(ls, tail[i].chunk)
        {
          if i >= |below.items| { assert tail[i] == rest.items[i - |below.items|]; }
        }
      }
    }
    var all := [c] + tail;
    forall i | 0 <= i < |all|
      ensures WellBuilt(ls, all[i]) && pos <= Lo(ls, all[i].chunk)
    {
      if i > 0 { assert all[i] == tail[i - 1]; }
    }
  }

  /** Block.recursive_components: the components of the block, each followed
    * by its own; the block's sub_components failing yields nothing. */
  function BlockWalk(ls: seq<string>, b: Block): (w: Walk)
    requires |ls| > 0 && Valid(ls, b.chunk)
    ensures forall i :: 0 <= i < |w.items| ==> WellBuilt(ls, w.items[i])
  {
    match SubComponents(ls, b)
    case Err(e) => Walk([], Some(e))
    case Ok(subs) =>
      SubComponentsLaid(ls, b);
      LaidOrdered(ls, b.scope, subs, WalkStart(ls, b.chunk), WalkStop(ls, b.chunk));
      RecursiveAll(ls, subs, WalkStart(ls, b.chunk))
  }

  // ---------------------------------------------------------------------
  // used_constructs

  /** Component.tokens: the tokens of the chunk, or of the prefix for the
    * classes with an inner block. */
  function OwnTokens(ls: seq<string>, comp: Comp): seq<string>
    requires WellBuilt(ls, comp)
  {
    if comp.inner.Some? then Tokens(Content(ls, comp.prefix.value))
    else Tokens(Content(ls, comp.chunk))
  }

  /** Some token of the component names a construct. */
  predicate MentionsAny(toks: seq<string>, names: set<string>) {
    exists k :: 0 <= k < |toks| && toks[k] in names
  }

  /** Component.used_constructs: the tokens that name a construct, except
    * the component's own name.  The name is only read when some token
    * names a construct, and then its error is raised. */
  function OwnUsed(ls: seq<string>, comp: Comp, names: set<string>): (r: Result<set<string>>)
    requires WellBuilt(ls, comp)
    ensures r.Ok? ==> forall x :: x in r.value ==> x in names && x in OwnTokens(ls, comp)
    ensures !MentionsAny(OwnTokens(ls, comp), names) ==> r == Ok({})
  {
    var toks := OwnTokens(ls, comp);
    if !MentionsAny(toks, names) then Ok({})
    else
      match comp.name
      case None => Ok(set x | x in toks && x in names)
      case Some(Err(e)) => Err(e)
      case Some(Ok(n)) => Ok(set x | x in toks && x in names && x != n)
  }

  /** The classes whose used_constructs adds the uses of the components of
    * their inner block: function and class definitions as written; also a
    * control block, as intended (see UsedBy). */
  predicate Descends(k: Kind, corrected: bool) {
    k == FunctionDefinition || k == MemberFunctionDefinition || k == ClassDefinition ||
    (corrected && k == ControlBlock)
  }

  /** used_constructs of a component, with the overrides of the function
    * and class definitions (own uses first, then those of each inner
    * component in turn).  As written (corrected false), a control block
    * keeps the base version, so the uses inside its braces are lost even
    * when it sits in a function body; corrected, it adds them. */
  function UsedBy(ls: seq<string>, comp: Comp, names: set<string>, corrected: bool): (r: Result<set<string>>)
    requires |ls| > 0 && WellBuilt(ls, comp)
    ensures r.Ok? ==> r.value <= names
    decreases Total(ls) - Lo(ls, comp.chunk), 0
  {
    match OwnUsed(ls, comp, names)
    case Err(e) => Err(e)
    case Ok(own) =>
      if !Descends(comp.kind, corrected) then Ok(own)
      else
        match InnerComponents(ls, comp)
        case Err(e) => Err(e)
        case Ok(subs) =>
          match UsedAll(ls, subs, names, corrected, Lo(ls, comp.chunk) + 1)
          case Err(e) => Err(e)
          case Ok(u) => Ok(own + u)
  }

  /** The union of used_constructs over comps, in turn. */
  function UsedAll(ls: seq<string>, comps: seq<Comp>, names: set<string>, corrected: bool, ghost pos: nat): (r: Result<set<string>>)
    requires |ls| > 0 && After(ls, comps, pos)
    ensures r.Ok? ==> r.value <= names
    decreases Total(ls) - pos, |comps| + 1
  {
    if |comps| == 0 then Ok({})
    else
      match UsedBy(ls, comps[0], names, corrected)
      case Err(e) => Err(e)
      case Ok(u) =>
        match UsedAll(ls, comps[1..], names, corrected, pos)
        case Err(e) => Err(e)
        case Ok(v) => Ok(u + v)
  }

  /** used_constructs as the source has it. */
  function UsedAsWritten(ls: seq<string>, comp: Comp, names: set<string>): Result<set<string>>
    requires |ls| > 0 && WellBuilt(ls, comp)
  {
    UsedBy(ls, comp, names, false)
  }

  /** used_constructs as intended: a control block adds the uses inside its braces. */
  function Used(ls: seq<string>, comp: Comp, names: set<string>): Result<set<string>>
    requires |ls| > 0 && WellBuilt(ls, comp)
  {
    UsedBy(ls, comp, names, true)
  }

  // ---------------------------------------------------------------------
  // construct_content and update_content

  /** update_content(a, b): every name of either, with a's components
    * followed by b's. */
  function Merge<T>(a: map<string, seq<T>>, b: map<string, seq<T>>): (r: map<string, seq<T>>)
    ensures r.Keys == a.Keys + b.Keys
  {
    map k | k in a.Keys + b.Keys :: Lookup(a, k) + Lookup(b, k)
  }

  /** The components stored under k, none when k is absent. */
  function Lookup<T>(m: map<string, seq<T>>, k: string): seq<T> {
    if k in m then m[k] else []
  }

  /** update_content: for each name of b, the list under it in a (made
    * empty when missing) is extended by b's list.  The dictionary a is
    * modelled by its value before and after. */
  method UpdateContent<T>(a: map<string, seq<T>>, b: map<string, seq<T>>) returns (r: map<string, seq<T>>)
    ensures r == Merge(a, b)
  {
    r := a;
    var todo := b.Keys;
    assert b - todo == map[];
    MergeNone(a);
    while todo != {}
      invariant todo <= b.Keys
      invariant r == Merge(a, b - todo)
      decreases todo
    {
      var k :| k in todo;
      MergeStep(a, b, todo, k);
      r := r[k := Lookup(r, k) + b[k]];
      todo := todo - {k};
    }
    assert b - {} == b;
  }

  /** Adding one more name of b to the merge. */
  lemma MergeStep<T>(a: map<string, seq<T>>, b: map<string, seq<T>>, todo: set<string>, k: string)
    requires todo <= b.Keys && k in todo
    ensures var m := Merge(a, b - todo);
      Merge(a, b - (todo - {k})) == m[k := Lookup(m, k) + b[k]]
  {
    var m := Merge(a, b - todo);
    var l := Merge(a, b - (todo - {k}));
    var u := m[k := Lookup(m, k) + b[k]];
    assert l.Keys == u.Keys;
    forall x | x in l.Keys
      ensures l[x] == u[x]
    {
      if x == k {
        assert Lookup(b - todo, k) == [];
        assert Lookup(m, k) == Lookup(a, k);
        assert Lookup(b - (todo - {k}), k) == b[k];
      } else {
        assert Lookup(b - (todo - {k}), x) == Lookup(b - todo, x);
      }
    }
  }

  /** What a merge holds under any name. */
  lemma LookupMerge<T>(a: map<string, seq<T>>, b: map<string, seq<T>>, k: string)
    ensures Lookup(Merge(a, b), k) == Lookup(a, k) + Lookup(b, k)
  {
  }

  /** Merging in nothing changes nothing. */
  lemma MergeNone<T>(a: map<string, seq<T>>)
    ensures Merge(a, map[]) == a && Merge(map[], a) == a
  {
    forall k | k in a
      ensures Merge(a, map[])[k] == a[k] && Merge(map[], a)[k] == a[k]
    {
      assert Lookup<T>(map[], k) == [];
      assert Lookup(a, k) + [] == a[k];
    }
  }

  /** Merging is associative: adding b then c is adding their merge. */
  lemma MergeAssoc<T>(a: map<string, seq<T>>, b: map<string, seq<T>>, c: map<string, seq<T>>)
    ensures Merge(Merge(a, b), c) == Merge(a, Merge(b, c))
  {
    var l, r := Merge(Merge(a, b), c), Merge(a, Merge(b, c));
    forall k | k in l.Keys
      ensures l[k] == r[k]
    {
      MergeAssocAt(a, b, c, k);
    }
  }

  /** The same, under one name. */
  lemma MergeAssocAt<T>(a: map<string, seq<T>>, b: map<string, seq<T>>, c: map<string, seq<T>>, k: string)
    ensures Lookup(Merge(Merge(a, b), c), k) == Lookup(Merge(a, Merge(b, c)), k)
  {
    var x, y, z := Lookup(a, k), Lookup(b, k), Lookup(c, k);
    SeqAssoc(x, y, z);
    LookupMerge(a, b, k);
    LookupMerge(b, c, k);
    LookupMerge(Merge(a, b), c, k);
    LookupMerge(a, Merge(b, c), k);
  }

  lemma SeqAssoc<T>(x: seq<T>, y: seq<T>, z: seq<T>)
    ensures (x + y) + z == x + (y + z)
  {
  }

  /** Every component stored under every name is well built. */
  predicate AllBuilt(ls: seq<string>, m: map<string, seq<Comp>>) {
    forall k, i :: k in m && 0 <= i < |m[k]| ==> WellBuilt(ls, m[k][i])
  }

  /** Merging keeps every stored component well built. */
  lemma MergeBuilt(ls: seq<string>, a: map<string, seq<Comp>>, b: map<string, seq<Comp>>)
    requires AllBuilt(ls, a) && AllBuilt(ls, b)
    ensures AllBuilt(ls, Merge(a, b))
  {
    var m := Merge(a, b);
    forall k, i | k in m && 0 <= i < |m[k]|
      ensures WellBuilt(ls, m[k][i])
    {
      if i >= |Lookup(a, k)| {
        assert m[k][i] == Lookup(b, k)[i - |Lookup(a, k)|];
      }
    }
  }

  /** construct_content: a function declaration gives itself to its name;
    * a function definition gives its prefix (as a statement) and its body's
    * components; a class definition gives its members to its name and adds
    * what each member gives; the other classes give nothing. */
  function ConstructContent(ls: seq<string>, comp: Comp): (r: Result<map<string, seq<Comp>>>)
    requires |ls| > 0 && WellBuilt(ls, comp)
    ensures r.Ok? ==> AllBuilt(ls, r.value)
    decreases Total(ls) - Lo(ls, comp.chunk), 1
  {
    match comp.kind
    case FunctionDeclaration => DeclarationContent(comp)
    case MemberFunctionDeclaration => DeclarationContent(comp)
    case FunctionDefinition => DefinitionContent(ls, comp)
    case MemberFunctionDefinition => DefinitionContent(ls, comp)
    case ClassDefinition =>
      ClassParts(ls, comp);
      MembersContent(ls, comp.name.value.value, SubComponents(ls, comp.inner.value), Lo(ls, comp.chunk) + 1)
    case _ => Ok(map[])
  }

  /** The rest of CppClassDefinition.construct_content, from the result of
    * its sub_components: the members under the class's name n, then what
    * each member gives, merged in turn; an error of sub_components is
    * raised. */
  function MembersContent(ls: seq<string>, n: string, subs: Result<seq<Comp>>, ghost pos: nat): (r: Result<map<string, seq<Comp>>>)
    requires |ls| > 0 && (subs.Ok? ==> After(ls, subs.value, pos))
    ensures r.Ok? ==> AllBuilt(ls, r.value)
    decreases Total(ls) - pos, if subs.Ok? then |subs.value| + 2 else 0
  {
    match subs
    case Err(e) => Err(e)
    case Ok(s) =>
      SingleBuilt(ls, n, s, pos);
      ContentFold(ls, map[n := s], s, pos)
  }

  /** Well-built components stored under one name are all well built. */
  lemma SingleBuilt(ls: seq<string>, n: string, s: seq<Comp>, pos: nat)
    requires After(ls, s, pos)
    ensures AllBuilt(ls, map[n := s])
  {
    var m := map[n := s];
    forall k, i | k in m && 0 <= i < |m[k]|
      ensures WellBuilt(ls, m[k][i])
    {
      assert m[k] == s;
    }
  }

  /** FunctionDeclaration.construct_content: {name: [self]}; reading the
    * name raises its error. */
  function DeclarationContent(comp: Comp): (r: Result<map<string, seq<Comp>>>)
    requires comp.name.Some?
    ensures comp.name.value.Ok? ==> r == Ok(map[comp.name.value.value := [comp]])
    ensures comp.name.value.Err? ==> r == Err(comp.name.value.error)
  {
    match comp.name.value
    case Err(e) => Err(e)
    case Ok(n) => Ok(map[n := [comp]])
  }

  /** FunctionDefinition.construct_content: the prefix as a MiscStatement,
    * then the body's components, under the function's name. */
  function DefinitionContent(ls: seq<string>, comp: Comp): (r: Result<map<string, seq<Comp>>>)
    requires |ls| > 0 && WellBuilt(ls, comp) && comp.inner.Some? && EagerName(comp.kind)
    ensures r.Ok? ==> AllBuilt(ls, r.value)
  {
    match Build(ls, MiscStatement, comp.prefix.value)
    case Err(e) => Err(e)
    case Ok(head) =>
      match InnerComponents(ls, comp)
      case Err(e) => Err(e)
      case Ok(subs) =>
        BuildWellBuilt(ls, MiscStatement, comp.prefix.value);
        var all := [head] + subs;
        assert forall i :: 0 < i < |all| ==> all[i] == subs[i - 1];
        Ok(map[comp.name.value.value := all])
  }

  /** The loop of CppClassDefinition.construct_content: update_content with
    * each member's construct_content, in turn. */
  function ContentFold(ls: seq<string>, acc: map<string, seq<Comp>>, comps: seq<Comp>, ghost pos: nat): (r: Result<map<string, seq<Comp>>>)
    requires |ls| > 0 && After(ls, comps, pos) && AllBuilt(ls, acc)
    ensures r.Ok? ==> AllBuilt(ls, r.value)
    decreases Total(ls) - pos, |comps| + 1
  {
    if |comps| == 0 then Ok(acc)
    else
      match ConstructContent(ls, comps[0])
      case Err(e) => Err(e)
      case Ok(m) =>
        MergeBuilt(ls, acc, m);
        ContentFold(ls, Merge(acc, m), comps[1..], pos)
  }

  // ---------------------------------------------------------------------
  // What used_constructs and construct_content promise

  /** used_constructs with fewer construct names is the same uses, cut
    * down to those names: the names only filter which uses are seen. */
  lemma {:induction false} UsedByRestrict(ls: seq<string>, comp: Comp, names1: set<string>, names2: set<string>, corrected: bool)
    requires |ls| > 0 && WellBuilt(ls, comp) && names1 <= names2
    requires UsedBy(ls, comp, names2, corrected).Ok?
    ensures UsedBy(ls, comp, names1, corrected) == Ok(UsedBy(ls, comp, names2, corrected).value * names1)
    decreases Total(ls) - Lo(ls, comp.chunk), 0
  {
    OwnUsedRestrict(ls, comp, names1, names2);
    if Descends(comp.kind, corrected) {
      var subs := InnerComponents(ls, comp).value;
      UsedAllRestrict(ls, subs, names1, names2, corrected, Lo(ls, comp.chunk) + 1);
      var own := OwnUsed(ls, comp, names2).value;
      var u := UsedAll(ls, subs, names2, corrected, Lo(ls, comp.chunk) + 1).value;
      assert (own + u) * names1 == own * names1 + u * names1;
    }
  }

  /** The same over a list of components. */
  lemma {:induction false} UsedAllRestrict(ls: seq<string>, comps: seq<Comp>, names1: set<string>, names2: set<string>, corrected: bool, pos: nat)
    requires |ls| > 0 && After(ls, comps, pos) && names1 <= names2
    requires UsedAll(ls, comps, names2, corrected, pos).Ok?
    ensures UsedAll(ls, comps, names1, corrected, pos) == Ok(UsedAll(ls, comps, names2, corrected, pos).value * names1)
    decreases Total(ls) - pos, |comps| + 1
  {
    if |comps| > 0 {
      var rest := comps[1..];
      assert After(ls, rest, pos) by {
        forall i | 0 <= i < |rest| ensures WellBuilt(ls, rest[i]) && pos <= Lo(ls, rest[i].chunk) {
          assert rest[i] == comps[i + 1];
        }
      }
      var u := UsedBy(ls, comps[0], names2, corrected).value;
      var v := UsedAll(ls, rest, names2, corrected, pos).value;
      UsedByRestrict(ls, comps[0], names1, names2, corrected);
      UsedAllRestrict(ls, rest, names1, names2, corrected, pos);
      assert UsedAll(ls, comps, names2, corrected, pos) == Ok(u + v);
      assert UsedAll(ls, comps, names1, corrected, pos) == Ok(u * names1 + v * names1);
      assert (u + v) * names1 == u * names1 + v * names1;
    } else {
      assert UsedAll(ls, comps, names2, corrected, pos) == Ok({});
      assert UsedAll(ls, comps, names1, corrected, pos) == Ok({});
      var e: set<string> := {};
      assert e * names1 == e;
    }
  }

  /** The base used_constructs with fewer names, likewise. */
  lemma OwnUsedRestrict(ls: seq<string>, comp: Comp, names1: set<string>, names2: set<string>)
    requires WellBuilt(ls, comp) && names1 <= names2 && OwnUsed(ls, comp, names2).Ok?
    ensures OwnUsed(ls, comp, names1) == Ok(OwnUsed(ls, comp, names2).value * names1)
  {
    var toks := OwnTokens(ls, comp);
    var u := OwnUsed(ls, comp, names2).value;
    if MentionsAny(toks, names1) {
      var k :| 0 <= k < |toks| && toks[k] in names1;
      assert MentionsAny(toks, names2);
      match comp.name
      case None =>
        assert u == set x | x in toks && x in names2;
        assert (set x | x in toks && x in names1) == u * names1;
      case Some(Err(e)) =>
        assert false;
      case Some(Ok(n)) =>
        assert u == set x | x in toks && x in names2 && x != n;
        assert (set x | x in toks && x in names1 && x != n) == u * names1;
    } else {
      forall x | x in u
        ensures x !in names1
      {
        assert x in toks;
      }
      assert u * names1 == {};
    }
  }

  /** A component that descends into its inner block uses at least what
    * each of the block's components uses. */
  lemma UsedCoversInner(ls: seq<string>, comp: Comp, names: set<string>, corrected: bool)
    requires |ls| > 0 && WellBuilt(ls, comp) && Descends(comp.kind, corrected)
    requires UsedBy(ls, comp, names, corrected).Ok?
    ensures InnerComponents(ls, comp).Ok?
    ensures var subs := InnerComponents(ls, comp).value;
      forall i :: 0 <= i < |subs| ==>
        UsedBy(ls, subs[i], names, corrected).Ok? &&
        UsedBy(ls, subs[i], names, corrected).value <= UsedBy(ls, comp, names, corrected).value
  {
    UsedAllCovers(ls, InnerComponents(ls, comp).value, names, corrected, Lo(ls, comp.chunk) + 1);
  }

  /** The union over a list covers the uses of each of its components. */
  lemma {:induction false} UsedAllCovers(ls: seq<string>, comps: seq<Comp>, names: set<string>, corrected: bool, pos: nat)
    requires |ls| > 0 && After(ls, comps, pos) && UsedAll(ls, comps, names, corrected, pos).Ok?
    ensures forall i :: 0 <= i < |comps| ==>
      UsedBy(ls, comps[i], names, corrected).Ok? &&
      UsedBy(ls, comps[i], names, corrected).value <= UsedAll(ls, comps, names, corrected, pos).value
    decreases |comps|
  {
    if |comps| > 0 {
      UsedAllCovers(ls, comps[1..], names, corrected, pos);
      forall i | 0 < i < |comps|
        ensures UsedBy(ls, comps[i], names, corrected).Ok? &&
                UsedBy(ls, comps[i], names, corrected).value <= UsedAll(ls, comps, names, corrected, pos).value
      {
        assert comps[i] == comps[1..][i - 1];
      }
    }
  }

  /** As written, a control block uses only names among the tokens before
    * its '{': whatever the statements inside its braces use is not seen,
    * not even when the block is part of a function body. */
  lemma ControlBlockBodyIgnored(ls: seq<string>, comp: Comp, names: set<string>)
    requires |ls| > 0 && WellBuilt(ls, comp) && comp.kind == ControlBlock
    ensures UsedAsWritten(ls, comp, names).Ok? ==>
      forall x :: x in UsedAsWritten(ls, comp, names).value ==> x in Tokens(Content(ls, comp.prefix.value))
  {
  }

  /** As intended, a control block uses what its inner components use, so
    * a function definition uses what the statements of its control
    * blocks use, at any depth. */
  lemma ControlBlockBodyCounted(ls: seq<string>, comp: Comp, names: set<string>)
    requires |ls| > 0 && WellBuilt(ls, comp) && comp.kind == ControlBlock && Used(ls, comp, names).Ok?
    ensures InnerComponents(ls, comp).Ok?
    ensures var subs := InnerComponents(ls, comp).value;
      forall i :: 0 <= i < |subs| ==>
        Used(ls, subs[i], names).Ok? && Used(ls, subs[i], names).value <= Used(ls, comp, names).value
  {
    UsedCoversInner(ls, comp, names, true);
  }

  /** The classes that give content to constructs. */
  predicate GivesContent(k: Kind) {
    k == FunctionDeclaration || k == MemberFunctionDeclaration || k == FunctionDefinition ||
    k == MemberFunctionDefinition || k == ClassDefinition
  }

  /** update_content in the loop of a class definition only appends: every
    * name already there stays, with its components first. */
  lemma {:induction false} ContentFoldKeeps(ls: seq<string>, acc: map<string, seq<Comp>>, comps: seq<Comp>, pos: nat)
    requires |ls| > 0 && After(ls, comps, pos) && AllBuilt(ls, acc)
    requires ContentFold(ls, acc, comps, pos).Ok?
    ensures var m := ContentFold(ls, acc, comps, pos).value;
      forall k :: k in acc ==> k in m && acc[k] <= m[k]
    decreases |comps|
  {
    if |comps| > 0 {
      var m := ConstructContent(ls, comps[0]).value;
      MergeBuilt(ls, acc, m);
      var next := Merge(acc, m);
      ContentFoldKeeps(ls, next, comps[1..], pos);
      forall k | k in acc
        ensures acc[k] <= next[k]
      {
        assert next[k] == acc[k] + Lookup(m, k);
      }
    }
  }

  /** The class's members stay first under its name. */
  lemma MembersContentKeeps(ls: seq<string>, n: string, subs: Result<seq<Comp>>, pos: nat)
    requires |ls| > 0 && (subs.Ok? ==> After(ls, subs.value, pos)) && MembersContent(ls, n, subs, pos).Ok?
    ensures subs.Ok? && n in MembersContent(ls, n, subs, pos).value
    ensures subs.value <= MembersContent(ls, n, subs, pos).value[n]
  {
    var s := subs.value;
    SingleBuilt(ls, n, s, pos);
    ContentFoldKeeps(ls, map[n := s], s, pos);
  }

  /** construct_content gives content to the component's own name for the
    * declarations and definitions of functions and classes (for a class,
    * first its members, in order), and nothing for the other classes;
    * a function gives content to its own name only. */
  lemma ConstructContentNames(ls: seq<string>, comp: Comp)
    requires |ls| > 0 && WellBuilt(ls, comp) && ConstructContent(ls, comp).Ok?
    ensures var m := ConstructContent(ls, comp).value;
      (!GivesContent(comp.kind) ==> m == map[]) &&
      (GivesContent(comp.kind) ==> comp.name.value.Ok? && comp.name.value.value in m) &&
      (comp.kind == FunctionDeclaration || comp.kind == MemberFunctionDeclaration ==>
         m == map[comp.name.value.value := [comp]]) &&
      (comp.kind == FunctionDefinition || comp.kind == MemberFunctionDefinition ==>
         m.Keys == {comp.name.value.value}) &&
      (comp.kind == ClassDefinition ==>
         InnerComponents(ls, comp).Ok? && InnerComponents(ls, comp).value <= m[comp.name.value.value])
  {
    var m := ConstructContent(ls, comp).value;
    match comp.kind
    case ClassDefinition =>
      ClassParts(ls, comp);
      MembersContentKeeps(ls, comp.name.value.value, SubComponents(ls, comp.inner.value), Lo(ls, comp.chunk) + 1);
    case FunctionDefinition =>
      assert m.Keys == {comp.name.value.value};
    case MemberFunctionDefinition =>
      assert m.Keys == {comp.name.value.value};
    case FunctionDeclaration =>
    case MemberFunctionDeclaration =>
    case _ =>
  }

  // ---------------------------------------------------------------------
  // The methods

  /** Combining own uses with a later result: an error wins. */
  function Plus(own: set<string>, r: Result<set<string>>): Result<set<string>> {
    if r.Err? then r else Ok(own + r.value)
  }

  /** Component.used_constructs and its overrides: the base comprehension,
    * then, for a class that descends, a loop adding what each component of
    * the inner block uses. */
  method UsedConstructs(ls: seq<string>, comp: Comp, names: set<string>, corrected: bool) returns (r: Result<set<string>>)
    requires Shaped(ls) && |ls| > 0 && WellBuilt(ls, comp)
    ensures r == UsedBy(ls, comp, names, corrected)
    decreases Total(ls) - Lo(ls, comp.chunk), 1
  {
    var own := OwnUsed(ls, comp, names);
    if own.Err? || !Descends(comp.kind, corrected) {
      UsedByOwn(ls, comp, names, corrected);
      return own;
    }
    InnerIsSub(ls, comp);
    var subs := BlockSubComponents(ls, comp.inner.value);
    UsedByInner(ls, comp, names, corrected);
    if subs.Err? {
      return Err(subs.error);
    }
    r := UsedLoop(ls, subs.value, names, corrected, Lo(ls, comp.chunk) + 1, own.value);
  }

  /** The loop of used_constructs over the inner components, adding each
    * one's uses to `used`. */
  method UsedLoop(ls: seq<string>, s: seq<Comp>, names: set<string>, corrected: bool, ghost pos: nat, used0: set<string>)
      returns (r: Result<set<string>>)
    requires Shaped(ls) && |ls| > 0 && After(ls, s, pos)
    ensures r == Plus(used0, UsedAll(ls, s, names, corrected, pos))
    decreases Total(ls) - pos, 2
  {
    ghost var goal := Plus(used0, UsedAll(ls, s, names, corrected, pos));
    var used := used0;
    for i := 0 to |s|
      invariant After(ls, s[i..], pos)
      invariant goal == Plus(used, UsedAll(ls, s[i..], names, corrected, pos))
    {
      assert WellBuilt(ls, s[i]) && pos <= Lo(ls, s[i].chunk) by {
        assert s[i..][0] == s[i];
      }
      var u := UsedConstructs(ls, s[i], names, corrected);
      UsedAllStep(ls, s[i..], names, corrected, pos, used);
      assert s[i..][1..] == s[i + 1..];
      if u.Err? {
        return Err(u.error);
      }
      used := used + u.value;
    }
    assert s[|s|..] == [];
    UsedAllEmpty(ls, names, corrected, pos);
    ghost var none: set<string> := {};
    assert used + none == used;
    assert goal == Plus(used, Ok(none));
    return Ok(used);
  }

  /** The inner components are the sub-components of the inner block. */
  lemma InnerIsSub(ls: seq<string>, comp: Comp)
    requires |ls| > 0 && WellBuilt(ls, comp) && comp.inner.Some?
    ensures Valid(ls, comp.inner.value.chunk)
    ensures InnerComponents(ls, comp) == SubComponents(ls, comp.inner.value)
  {
  }

  /** used_constructs of a component that does not descend, or whose own
    * uses fail, is its own uses. */
  lemma UsedByOwn(ls: seq<string>, comp: Comp, names: set<string>, corrected: bool)
    requires |ls| > 0 && WellBuilt(ls, comp)
    requires OwnUsed(ls, comp, names).Err? || !Descends(comp.kind, corrected)
    ensures UsedBy(ls, comp, names, corrected) == OwnUsed(ls, comp, names)
  {
  }

  /** used_constructs of a component that descends: its own uses, then
    * those of its inner components. */
  lemma UsedByInner(ls: seq<string>, comp: Comp, names: set<string>, corrected: bool)
    requires |ls| > 0 && WellBuilt(ls, comp) && comp.inner.Some?
    requires OwnUsed(ls, comp, names).Ok? && Descends(comp.kind, corrected)
    ensures InnerComponents(ls, comp).Err? ==>
      UsedBy(ls, comp, names, corrected) == Err(InnerComponents(ls, comp).error)
    ensures InnerComponents(ls, comp).Ok? ==>
      UsedBy(ls, comp, names, corrected) ==
      Plus(OwnUsed(ls, comp, names).value, UsedAll(ls, InnerComponents(ls, comp).value, names, corrected, Lo(ls, comp.chunk) + 1))
  {
  }

  /** No components use nothing. */
  lemma UsedAllEmpty(ls: seq<string>, names: set<string>, corrected: bool, pos: nat)
    requires |ls| > 0
    ensures UsedAll(ls, [], names, corrected, pos) == Ok({})
  {
  }

  /** One turn of the loop of used_constructs: an error from the first
    * component ends it; otherwise its uses join the union. */
  lemma UsedAllStep(ls: seq<string>, comps: seq<Comp>, names: set<string>, corrected: bool, pos: nat, used: set<string>)
    requires |ls| > 0 && After(ls, comps, pos) && |comps| > 0
    ensures After(ls, comps[1..], pos)
    ensures UsedBy(ls, comps[0], names, corrected).Err? ==>
      Plus(used, UsedAll(ls, comps, names, corrected, pos)) == UsedBy(ls, comps[0], names, corrected)
    ensures UsedBy(ls, comps[0], names, corrected).Ok? ==>
      Plus(used, UsedAll(ls, comps, names, corrected, pos)) ==
      Plus(used + UsedBy(ls, comps[0], names, corrected).value, UsedAll(ls, comps[1..], names, corrected, pos))
  {
    var rest := comps[1..];
    assert After(ls, rest, pos) by {
      forall i | 0 <= i < |rest| ensures WellBuilt(ls, rest[i]) && pos <= Lo(ls, rest[i].chunk) {
        assert rest[i] == comps[i + 1];
      }
    }
    match UsedBy(ls, comps[0], names, corrected)
    case Err(e) =>
    case Ok(u) =>
      match UsedAll(ls, rest, names, corrected, pos)
      case Err(e) =>
      case Ok(v) =>
        assert used + (u + v) == (used + u) + v;
  }

  /** construct_content, with the loop of CppClassDefinition calling
    * update_content once per member. */
  method ConstructContentOf(ls: seq<string>, comp: Comp) returns (r: Result<map<string, seq<Comp>>>)
    requires Shaped(ls) && |ls| > 0 && CompBuilt(ls, comp)
    ensures r == ConstructContent(ls, comp)
    decreases Total(ls) - Lo(ls, comp.chunk), 2
  {
    match comp.kind
    case FunctionDeclaration => r := DeclarationContent(comp);
    case MemberFunctionDeclaration => r := DeclarationContent(comp);
    case FunctionDefinition => r := DefinitionContentOf(ls, comp);
    case MemberFunctionDefinition => r := DefinitionContentOf(ls, comp);
    case ClassDefinition => r := ClassDefinitionContentOf(ls, comp);
    case _ => r := Ok(map[]);
  }

  /** FunctionDefinition.construct_content: the prefix made a statement,
    * then the body's components. */
  method DefinitionContentOf(ls: seq<string>, comp: Comp) returns (r: Result<map<string, seq<Comp>>>)
    requires Shaped(ls) && |ls| > 0 && CompBuilt(ls, comp) && comp.inner.Some? && EagerName(comp.kind)
    ensures r == DefinitionContent(ls, comp)
  {
    var head := NewComponent(ls, MiscStatement, comp.prefix.value);
    if head.Err? {
      return Err(head.error);
    }
    var subs := BlockSubComponents(ls, comp.inner.value);
    assert subs == InnerComponents(ls, comp);
    if subs.Err? {
      return Err(subs.error);
    }
    return Ok(map[comp.name.value.value := [head.value] + subs.value]);
  }

  /** CppClassDefinition.construct_content. */
  method ClassDefinitionContentOf(ls: seq<string>, comp: Comp) returns (r: Result<map<string, seq<Comp>>>)
    requires Shaped(ls) && |ls| > 0 && ClassReady(ls, comp)
    ensures r == ConstructContent(ls, comp)
    decreases Total(ls) - Lo(ls, comp.chunk), 1
  {
    ClassConstructed(ls, comp);
    r := ClassContentOf(ls, comp.name.value.value, comp.inner.value, Lo(ls, comp.chunk) + 1);
  }

  /** A class's construct_content is its members' content. */
  lemma ClassConstructed(ls: seq<string>, comp: Comp)
    requires |ls| > 0 && ClassReady(ls, comp)
    ensures comp.name.Some? && comp.name.value.Ok? && comp.inner.Some? && Lo(ls, comp.chunk) < Total(ls)
    ensures BlockReady(ls, comp.inner.value, Lo(ls, comp.chunk) + 1)
    ensures ConstructContent(ls, comp) == MembersContent(ls, comp.name.value.value, SubComponents(ls, comp.inner.value), Lo(ls, comp.chunk) + 1)
  {
    ClassParts(ls, comp);
  }

  /** CppClassDefinition.construct_content for the class named n with inner
    * block b: sub_components of the block, then the loop over the members. */
  method ClassContentOf(ls: seq<string>, n: string, b: Block, ghost pos: nat) returns (r: Result<map<string, seq<Comp>>>)
    requires Shaped(ls) && |ls| > 0 && BlockReady(ls, b, pos)
    ensures r == MembersContent(ls, n, SubComponents(ls, b), pos)
    decreases Total(ls) - pos, 4
  {
    var subs := BlockSubComponents(ls, b);
    r := MembersContentOf(ls, n, subs, pos);
  }

  /** A block laid out in the lines whose sub_components lie after pos.
    * Written as a match so that a call needing it checks it as one fact. */
  predicate BlockReady(ls: seq<string>, b: Block, pos: nat) {
    match b
    case Block(c, _) => Valid(ls, c) && (SubComponents(ls, b).Ok? ==> After(ls, SubComponents(ls, b).value, pos))
  }

  /** WellBuilt, stated in this module so that a call of the methods below
    * checks it as one fact. */
  predicate CompBuilt(ls: seq<string>, comp: Comp) {
    WellBuilt(ls, comp)
  }

  /** A well-built class definition. Written as a match on the inner block
    * so that a call needing it checks it as one fact. */
  predicate ClassReady(ls: seq<string>, comp: Comp) {
    match comp.inner
    case None => false
    case Some(_) => comp.kind == ClassDefinition && WellBuilt(ls, comp)
  }

  /** What a class definition's content is made from: its name, and the
    * sub_components of its inner block, which lie after its start. */
  lemma ClassParts(ls: seq<string>, comp: Comp)
    requires |ls| > 0 && ClassReady(ls, comp)
    ensures comp.inner.Some? && Valid(ls, comp.inner.value.chunk)
    ensures comp.name.Some? && comp.name.value.Ok? && Lo(ls, comp.chunk) < Total(ls)
    ensures SubComponents(ls, comp.inner.value).Ok? ==>
      After(ls, SubComponents(ls, comp.inner.value).value, Lo(ls, comp.chunk) + 1)
    ensures SubComponents(ls, comp.inner.value) == InnerComponents(ls, comp)
    ensures BlockReady(ls, comp.inner.value, Lo(ls, comp.chunk) + 1)
  {
    assert SubComponents(ls, comp.inner.value) == InnerComponents(ls, comp);
  }

  /** The rest of CppClassDefinition.construct_content: an error of
    * sub_components is raised; otherwise the members go under the class's
    * name, then update_content with each member's construct_content. */
  method MembersContentOf(ls: seq<string>, n: string, subs: Result<seq<Comp>>, ghost pos: nat) returns (r: Result<map<string, seq<Comp>>>)
    requires Shaped(ls) && |ls| > 0 && (subs.Ok? ==> After(ls, subs.value, pos))
    ensures r == MembersContent(ls, n, subs, pos)
    decreases Total(ls) - pos, 3
  {
    if subs.Err? {
      return Err(subs.error);
    }
    var s := subs.value;
    var acc := map[n := s];
    SingleBuilt(ls, n, s, pos);
    assert s[0..] == s;
    for i := 0 to |s|
      invariant After(ls, s[i..], pos) && AllBuilt(ls, acc)
      invariant MembersContent(ls, n, subs, pos) == ContentFold(ls, acc, s[i..], pos)
    {
      var m := ConstructContentOf(ls, s[i]);
      assert s[i..][1..] == s[i + 1..];
      if m.Err? {
        return Err(m.error);
      }
      MergeBuilt(ls, acc, m.value);
      acc := UpdateContent(acc, m.value);
    }
    return Ok(acc);
  }
}
