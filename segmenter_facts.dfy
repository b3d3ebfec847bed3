/*
 * What the segmenter guarantees about the components it produces: the
 * classes each scope admits, the character that closes each class's
 * chunk, how an inner block and a prefix sit in their component, and
 * that Block.sub_components lists components in order, without overlap,
 * with nothing but whitespace between them (except before a directive).
 */
module SegmenterFacts {
  import opened Errors
  import opened Text
  import opened Position
  import opened Chunks
  import opened Scanners
  import opened Segmenter

  // ---------------------------------------------------------------------
  // Definitions

  /** The classes Component.create can produce in each scope: member
    * functions only in a class, free functions only outside one, and in a
    * function body no declaration, no using statement and no function. */
  predicate AllowedIn(scope: Scope, k: Kind) {
    match scope
    case Global => k != MemberFunctionDeclaration && k != MemberFunctionDefinition
    case ClassScope => k != FunctionDeclaration && k != FunctionDefinition
    case Func =>
      k == Label || k == MiscStatement || k == Preprocessor ||
      k == Namespace || k == ClassDefinition || k == ControlBlock
  }

  /** The classes whose chunk ends at a matched '}'. */
  predicate BraceClosed(k: Kind) {
    k == Namespace || k == ControlBlock || k == FunctionDefinition || k == MemberFunctionDefinition
  }

  /** A carved chunk is not empty, and ends with the character that closed
    * it: ':' for a label, '}' for the brace classes, ';' for the rest; a
    * directive starts with its '#'. */
  predicate CarvedShape(t: string, cv: Carved) {
    cv.a < cv.b <= |t| &&
    if cv.kind == Preprocessor then t[cv.a] == '#'
    else if cv.kind == Label then t[cv.b - 1] == ':'
    else if BraceClosed(cv.kind) then t[cv.b - 1] == '}'
    else t[cv.b - 1] == ';'
  }

  /** The same of a component's stripped chunk. */
  predicate EndsRight(ls: seq<string>, comp: Comp)
    requires Valid(ls, comp.chunk) && Lo(ls, comp.chunk) < Hi(ls, comp.chunk)
  {
    var t, lo, hi := Flat(ls), Lo(ls, comp.chunk), Hi(ls, comp.chunk);
    if comp.kind == Preprocessor then t[lo] == '#'
    else if comp.kind == Label then t[hi - 1] == ':'
    else if BraceClosed(comp.kind) then t[hi - 1] == '}'
    else t[hi - 1] == ';'
  }

  /** The scope of the inner block of the classes that have one. */
  function InnerScope(k: Kind): Option<Scope> {
    match k
    case Namespace => Some(Global)
    case ClassDefinition => Some(ClassScope)
    case ControlBlock => Some(ClassScope)
    case FunctionDefinition => Some(Func)
    case MemberFunctionDefinition => Some(Func)
    case _ => None
  }

  /** The classes with a name attribute. */
  predicate Named(k: Kind) {
    k == Label || k == ClassForwardDeclaration || k == FunctionDeclaration ||
    k == MemberFunctionDeclaration || k == ClassDefinition ||
    k == FunctionDefinition || k == MemberFunctionDefinition
  }

  /** The classes whose constructor computes the name, so that a failure
    * there is a failure to build the component. */
  predicate EagerName(k: Kind) {
    k == ClassForwardDeclaration || k == ClassDefinition ||
    k == FunctionDefinition || k == MemberFunctionDefinition
  }

  /** The inner block starts with its '{' inside the component, in the
    * scope of the component's class, and the prefix is everything before. */
  predicate InnerLaidOut(ls: seq<string>, comp: Comp)
    requires Valid(ls, comp.chunk) && comp.inner.Some? && comp.prefix.Some?
  {
    var b, p := comp.inner.value.chunk, comp.prefix.value;
    Valid(ls, b) && Valid(ls, p) &&
    Lo(ls, comp.chunk) <= Lo(ls, b) < Hi(ls, b) <= Hi(ls, comp.chunk) &&
    Flat(ls)[Lo(ls, b)] == '{' &&
    Some(comp.inner.value.scope) == InnerScope(comp.kind) &&
    Lo(ls, p) == Lo(ls, comp.chunk) && Hi(ls, p) == Lo(ls, b)
  }

  /** What every component a constructor returns looks like. */
  predicate WellBuilt(ls: seq<string>, comp: Comp) {
    Valid(ls, comp.chunk) && Lo(ls, comp.chunk) < Hi(ls, comp.chunk) &&
    (comp.name.Some? <==> Named(comp.kind)) &&
    (EagerName(comp.kind) ==> comp.name.Some? && comp.name.value.Ok?) &&
    (comp.inner.Some? <==> InnerScope(comp.kind).Some?) &&
    (comp.prefix.Some? <==> comp.inner.Some?) &&
    (comp.inner.Some? ==> InnerLaidOut(ls, comp))
  }

  // ---------------------------------------------------------------------
  // Component.create

  /** While the collected text would pass the label test, the character
    * just before the walk is the ':' that made it pass. */
  predicate LabelReady(t: string, lo: nat, j: nat, s: string) {
    LabelPending(s) ==> lo < j <= |t| && t[j - 1] == ':'
  }

  /** The collected text passes the label test at any character but ':'. */
  predicate LabelPending(s: string) {
    !Contains(s, "class") && !Contains(s, "()") && EndsWith(s, ":") && !EndsWith(s, "::")
  }

  /** A directive is carved from its '#' to past its first line. */
  lemma DirectiveShape(ls: seq<string>, j: nat, hi: nat)
    requires WellFormed(ls) && |ls| > 0 && j <= hi <= Total(ls) && AtDirective(ls, j)
    ensures var r := Directive(ls, j, hi); r.Ok? ==> CarvedShape(Flat(ls), r.value)
  {
    PosAtSpec(ls, j);
    var p := PosAt(ls, j);
    LineChar(ls, p.line, 0);
    LineStartNext(ls, p.line);
  }

  /** A '<' either skips a template list, recorded as "<>", or leaves the
    * collected text alone. */
  lemma AngleShape(t: string, lo: nat, hi: nat, j: nat, s: string)
    requires lo <= j < hi <= |t| && !LabelPending(s)
    ensures var m := AngleMove(t, hi, j, s); m.Next? ==> LabelReady(t, lo, m.n, m.s)
  {
    match PairScan(t, hi, j, '<', '>', 0, false)
    case Ok(e) => assert (s + "<>")[|s| + 1..] == ">";
    case Err(_) =>
  }

  /** A bracket pair is recorded as "()" or "[]". */
  lemma BracketShape(t: string, lo: nat, hi: nat, j: nat, s: string)
    requires lo <= j < hi <= |t| && (t[j] == '(' || t[j] == '[')
    ensures var m := BracketMove(t, hi, j, s); m.Next? ==> LabelReady(t, lo, m.n, m.s)
  {
    var c := t[j];
    match PairScan(t, hi, j, c, CloseOf(c), 0, true)
    case Ok(e) => assert (s + [c, CloseOf(c)])[|s| + 1..] == [CloseOf(c)];
    case Err(_) =>
  }

  /** A matched '{' closes a namespace, a class (through its ';'), or a
    * function or control block of a class the scope admits. */
  lemma BraceShape(ls: seq<string>, lo: nat, hi: nat, scope: Scope, j: nat, s: string)
    requires WellFormed(ls) && |ls| > 0 && lo <= j < hi <= Total(ls)
    requires !LabelPending(s)
    ensures var m := BraceMove(ls, lo, hi, scope, j, s);
      (m.Done? && m.r.Ok? ==> CarvedShape(Flat(ls), m.r.value) && AllowedIn(scope, m.r.value.kind)) &&
      (m.Next? ==> LabelReady(Flat(ls), lo, m.n, m.s))
  {
    match ScopeTokensOf(ls, Span(ls, lo, j))
    case Err(_) =>
    case Ok(toks) =>
      match PairScan(Flat(ls), hi, j, '{', '}', 0, true)
      case Err(_) =>
      case Ok(e) => BraceTailShape(ls, lo, hi, scope, toks, s, e);
  }

  /** After the '}' at e. */
  lemma BraceTailShape(ls: seq<string>, lo: nat, hi: nat, scope: Scope, toks: seq<string>, s: string, e: nat)
    requires WellFormed(ls) && |ls| > 0 && lo <= e < hi <= Total(ls) && Flat(ls)[e] == '}'
    requires !LabelPending(s)
    ensures var m := BraceTail(ls, lo, hi, scope, toks, s, e);
      (m.Done? && m.r.Ok? ==> CarvedShape(Flat(ls), m.r.value) && AllowedIn(scope, m.r.value.kind)) &&
      (m.Next? ==> LabelReady(Flat(ls), lo, m.n, m.s))
  {
    if !Contains(s, "namespace") && Contains(s, "class") {
      var r := ClassEnd(Flat(ls), hi, e + 1);
    }
  }

  /** What MoveShape states of a move: a result it gives has the shape of
    * its class and a class the scope admits, and a next step keeps LabelReady. */
  ghost predicate MoveKeeps(t: string, lo: nat, scope: Scope, m: Move) {
    (m.Done? && m.r.Ok? ==> CarvedShape(t, m.r.value) && AllowedIn(scope, m.r.value.kind)) &&
    (m.Next? ==> LabelReady(t, lo, m.n, m.s))
  }

  /** One iteration keeps LabelReady, and a result it gives has the
    * shape of its class and a class its scope admits. */
  lemma MoveShape(ls: seq<string>, lo: nat, hi: nat, scope: Scope, j: nat, s: string)
    requires WellFormed(ls) && |ls| > 0 && lo <= j < hi <= Total(ls)
    requires LabelReady(Flat(ls), lo, j, s)
    ensures MoveKeeps(Flat(ls), lo, scope, CreateMove(ls, lo, hi, scope, j, s))
  {
    var t := Flat(ls);
    var c := t[j];
    if IsLabelEnd(s, c) || c == ';' || (!AtDirective(ls, j) && IsAsciiSpace(c)) {
      MoveShapePlain(ls, lo, hi, scope, j, s);
    } else if AtDirective(ls, j) {
      MoveShapeDirective(ls, lo, hi, scope, j, s);
    } else {
      MoveShapeBracketed(ls, lo, hi, scope, j, s);
    }
  }

  /** MoveShape at a label's ':', a ';' or a space. */
  lemma MoveShapePlain(ls: seq<string>, lo: nat, hi: nat, scope: Scope, j: nat, s: string)
    requires WellFormed(ls) && |ls| > 0 && lo <= j < hi <= Total(ls)
    requires LabelReady(Flat(ls), lo, j, s)
    requires var c := Flat(ls)[j]; IsLabelEnd(s, c) || c == ';' || (!AtDirective(ls, j) && IsAsciiSpace(c))
    ensures MoveKeeps(Flat(ls), lo, scope, CreateMove(ls, lo, hi, scope, j, s))
  {
  }

  /** MoveShape at a preprocessor directive. */
  lemma MoveShapeDirective(ls: seq<string>, lo: nat, hi: nat, scope: Scope, j: nat, s: string)
    requires WellFormed(ls) && |ls| > 0 && lo <= j < hi <= Total(ls)
    requires var c := Flat(ls)[j]; !IsLabelEnd(s, c) && c != ';' && AtDirective(ls, j)
    ensures MoveKeeps(Flat(ls), lo, scope, CreateMove(ls, lo, hi, scope, j, s))
  {
    DirectiveShape(ls, j, hi);
  }

  /** MoveShape at any other character: brackets, braces, and text collected for the label test. */
  lemma MoveShapeBracketed(ls: seq<string>, lo: nat, hi: nat, scope: Scope, j: nat, s: string)
    requires WellFormed(ls) && |ls| > 0 && lo <= j < hi <= Total(ls)
    requires LabelReady(Flat(ls), lo, j, s)
    requires var c := Flat(ls)[j]; !IsLabelEnd(s, c) && c != ';' && !AtDirective(ls, j) && !IsAsciiSpace(c)
    ensures MoveKeeps(Flat(ls), lo, scope, CreateMove(ls, lo, hi, scope, j, s))
  {
    var t := Flat(ls);
    var c := t[j];
    if c == '<' && scope != Func {
      AngleShape(t, lo, hi, j, s);
    } else if c == '(' || c == '[' {
      BracketShape(t, lo, hi, j, s);
    } else if c == '{' {
      BraceShape(ls, lo, hi, scope, j, s);
    } else if c != ':' {
      assert (s + [c])[|s|..] == [c];
    }
  }

  /** The whole walk: whatever create carves has its class's shape and a
    * class its scope admits. */
  lemma {:induction false} ScanShape(ls: seq<string>, lo: nat, hi: nat, scope: Scope, j: nat, s: string)
    requires WellFormed(ls) && |ls| > 0 && lo <= j <= hi <= Total(ls)
    requires LabelReady(Flat(ls), lo, j, s)
    ensures var r := CreateScan(ls, lo, hi, scope, j, s);
      r.Ok? ==> CarvedShape(Flat(ls), r.value) && AllowedIn(scope, r.value.kind)
    decreases hi - j
  {
    if j < hi {
      MoveShape(ls, lo, hi, scope, j, s);
      match CreateMove(ls, lo, hi, scope, j, s)
      case Done(_) =>
      case Next(n, s') => ScanShape(ls, lo, hi, scope, n, s');
    }
  }

  // ---------------------------------------------------------------------
  // The constructors

  /** Every constructor builds a well-built component. */
  lemma ShapeWellBuilt(ls: seq<string>, kind: Kind, d: Chunk)
    requires Valid(ls, d) && |ls| > 0 && Lo(ls, d) < Hi(ls, d) && Shape(ls, kind, d).Ok?
    ensures WellBuilt(ls, Shape(ls, kind, d).value)
  {
    if InnerScope(kind).None? {
      PlainShapeWellBuilt(ls, kind, d);
    } else if kind == ClassDefinition {
      ClassShapeWellBuilt(ls, d);
    } else if kind == FunctionDefinition || kind == MemberFunctionDefinition {
      FunctionShapeWellBuilt(ls, kind, d);
    } else {
      BlockShapeWellBuilt(ls, kind, d);
    }
  }

  /** The constructors of the classes without an inner block. */
  lemma PlainShapeWellBuilt(ls: seq<string>, kind: Kind, d: Chunk)
    requires Valid(ls, d) && |ls| > 0 && Lo(ls, d) < Hi(ls, d) && Shape(ls, kind, d).Ok?
    requires InnerScope(kind).None?
    ensures WellBuilt(ls, Shape(ls, kind, d).value)
  {
    var comp := Shape(ls, kind, d).value;
    assert comp.inner.None? && comp.prefix.None?;
    if kind == ClassForwardDeclaration {
      assert comp.name == Some(Ok(LastToken(ls, d).value));
    }
  }

  /** ClassDefinition's constructor: the inner block runs from the first
    * '{' to just before the ';', and the name is read from the prefix. */
  lemma ClassShapeWellBuilt(ls: seq<string>, d: Chunk)
    requires Valid(ls, d) && |ls| > 0 && Lo(ls, d) < Hi(ls, d) && Shape(ls, ClassDefinition, d).Ok?
    ensures WellBuilt(ls, Shape(ls, ClassDefinition, d).value)
  {
    var b := InnerChunk(ls, d, true).value;
    var p := Span(ls, Lo(ls, d), Lo(ls, b));
    var comp := Comp(ClassDefinition, d, Some(Ok(ClassName(ls, p).value)), Some(Block(b, ClassScope)), Some(p));
    assert Shape(ls, ClassDefinition, d) == Ok(comp);
    assert InnerLaidOut(ls, comp);
  }

  /** The function definitions' constructor: an inner block from the first '{'. */
  lemma FunctionShapeWellBuilt(ls: seq<string>, kind: Kind, d: Chunk)
    requires Valid(ls, d) && |ls| > 0 && Lo(ls, d) < Hi(ls, d) && Shape(ls, kind, d).Ok?
    requires kind == FunctionDefinition || kind == MemberFunctionDefinition
    ensures WellBuilt(ls, Shape(ls, kind, d).value)
  {
  }

  /** The constructors of namespaces and control blocks: an inner block from the first '{'. */
  lemma BlockShapeWellBuilt(ls: seq<string>, kind: Kind, d: Chunk)
    requires Valid(ls, d) && |ls| > 0 && Lo(ls, d) < Hi(ls, d) && Shape(ls, kind, d).Ok?
    requires kind == Namespace || kind == ControlBlock
    ensures WellBuilt(ls, Shape(ls, kind, d).value)
  {
  }

  /** Whatever the constructors build from a chunk is well built. */
  lemma BuildWellBuilt(ls: seq<string>, kind: Kind, c: Chunk)
    requires Valid(ls, c) && |ls| > 0 && Build(ls, kind, c).Ok?
    ensures WellBuilt(ls, Build(ls, kind, c).value)
  {
    StrippedChunkInside(ls, c);
    ShapeWellBuilt(ls, kind, StrippedChunk(ls, c).value);
  }

  /** The constructor strips only whitespace off a carved chunk, so the
    * closing character stays last (and a directive's '#' first); what it
    * strips in front is whitespace. */
  lemma BuildShape(ls: seq<string>, cv: Carved)
    requires WellFormed(ls) && |ls| > 0 && cv.b <= Total(ls) && CarvedShape(Flat(ls), cv)
    requires Build(ls, cv.kind, Span(ls, cv.a, cv.b)).Ok?
    ensures var comp := Build(ls, cv.kind, Span(ls, cv.a, cv.b)).value;
      WellBuilt(ls, comp) && EndsRight(ls, comp) &&
      (cv.kind != Preprocessor ==> forall k :: cv.a <= k < Lo(ls, comp.chunk) ==> IsAsciiSpace(Flat(ls)[k]))
  {
    var c := Span(ls, cv.a, cv.b);
    StrippedChunkInside(ls, c);
    var d := StrippedChunk(ls, c).value;
    ShapeWellBuilt(ls, cv.kind, d);
  }

  /** Component.create returns a well-built component of a class its scope
    * admits, closed by the right character, after nothing but whitespace
    * (unless it is a directive). */
  lemma CreateShape(ls: seq<string>, c: Chunk, scope: Scope)
    requires Valid(ls, c) && |ls| > 0 && Create(ls, c, scope).Ok?
    ensures var comp := Create(ls, c, scope).value;
      WellBuilt(ls, comp) && EndsRight(ls, comp) && AllowedIn(scope, comp.kind) &&
      (comp.kind != Preprocessor ==> forall k :: Lo(ls, c) <= k < Lo(ls, comp.chunk) ==> IsAsciiSpace(Flat(ls)[k]))
  {
    var lo, hi := Lo(ls, c), Hi(ls, c);
    ScanShape(ls, lo, hi, scope, lo, "");
    var cv := CreateScan(ls, lo, hi, scope, lo, "").value;
    BuildShape(ls, cv);
  }

  // ---------------------------------------------------------------------
  // Block.sub_components

  /** comps lie one after another from offset pos on: each well built, of
    * a class the scope admits and closed by the right character; each
    * starts at or after the end of the one before, with only whitespace
    * skipped unless it is a directive; and each but a directive ends by
    * stop. */
  predicate Laid(ls: seq<string>, scope: Scope, comps: seq<Comp>, pos: nat, stop: nat)
    decreases |comps|
  {
    |comps| == 0 ||
    var c := comps[0];
    WellBuilt(ls, c) && EndsRight(ls, c) && AllowedIn(scope, c.kind) &&
    pos <= Lo(ls, c.chunk) &&
    (c.kind != Preprocessor ==>
       Hi(ls, c.chunk) <= stop &&
       forall k :: pos <= k < Lo(ls, c.chunk) ==> IsAsciiSpace(Flat(ls)[k])) &&
    Laid(ls, scope, comps[1..], Hi(ls, c.chunk), stop)
  }

  /** The loop of Block.sub_components lays its components out in order. */
  lemma {:induction false} SubsFromLaid(ls: seq<string>, scope: Scope, pos: nat, stop: nat)
    requires WellFormed(ls) && |ls| > 0 && pos <= Total(ls) && stop <= Total(ls)
    requires SubsFrom(ls, scope, pos, stop).Ok?
    ensures Laid(ls, scope, SubsFrom(ls, scope, pos, stop).value, pos, stop)
    decreases Total(ls) - pos
  {
    var c := Span(ls, pos, stop);
    match Create(ls, c, scope)
    case Err(_) =>
    case Ok(comp) =>
      CreateShape(ls, c, scope);
      SubsFromLaid(ls, scope, Hi(ls, comp.chunk), stop);
      var comps := SubsFrom(ls, scope, pos, stop).value;
      assert comps[0] == comp && comps[1..] == SubsFrom(ls, scope, Hi(ls, comp.chunk), stop).value;
  }

  /** Block.sub_components lays its components out from where its walk
    * starts: after the block's '{', if it has one. */
  lemma SubComponentsLaid(ls: seq<string>, b: Block)
    requires Valid(ls, b.chunk) && |ls| > 0 && SubComponents(ls, b).Ok?
    ensures Lo(ls, b.chunk) < Hi(ls, b.chunk)
    ensures Laid(ls, b.scope, SubComponents(ls, b).value, WalkStart(ls, b.chunk), WalkStop(ls, b.chunk))
  {
    SubsFromLaid(ls, b.scope, WalkStart(ls, b.chunk), WalkStop(ls, b.chunk));
  }

  /** Laid out components are each well built and of an admitted class,
    * none starts before pos, and none overlaps a later one. */
  lemma {:induction false} LaidOrdered(ls: seq<string>, scope: Scope, comps: seq<Comp>, pos: nat, stop: nat)
    requires Laid(ls, scope, comps, pos, stop)
    ensures forall i :: 0 <= i < |comps| ==>
      WellBuilt(ls, comps[i]) && AllowedIn(scope, comps[i].kind) && pos <= Lo(ls, comps[i].chunk)
    ensures forall i, j :: 0 <= i < j < |comps| ==>
      Valid(ls, comps[i].chunk) && Valid(ls, comps[j].chunk) &&
      Hi(ls, comps[i].chunk) <= Lo(ls, comps[j].chunk)
    decreases |comps|
  {
    if |comps| > 0 {
      var c := comps[0];
      LaidOrdered(ls, scope, comps[1..], Hi(ls, c.chunk), stop);
      forall i, j | 0 <= i < j < |comps|
        ensures Valid(ls, comps[i].chunk) && Valid(ls, comps[j].chunk) &&
                Hi(ls, comps[i].chunk) <= Lo(ls, comps[j].chunk)
      {
        assert comps[j] == comps[1..][j - 1];
        if i > 0 { assert comps[i] == comps[1..][i - 1]; }
      }
      forall i | 0 < i < |comps|
        ensures WellBuilt(ls, comps[i]) && AllowedIn(scope, comps[i].kind) && pos <= Lo(ls, comps[i].chunk)
      {
        assert comps[i] == comps[1..][i - 1];
      }
    }
  }
}
