/*
 * The declaration segmenter: Component.create, the constructors of the
 * component classes, and Block.sub_components.  Component.create walks a
 * chunk of stripped text until it can tell what kind of component the
 * text up to a ';' or a matched '{}' is; each kind's constructor strips
 * that text and finds the parts it keeps (inner block, prefix, name);
 * Block.sub_components carves components one after another.
 *
 * As in the scanners, the walk is specified over flat offsets into the
 * stripped text t = Flat(ls), and the methods are proved equal to that
 * specification.
 */
module Segmenter {
  import opened Errors
  import opened Text
  import opened Position
  import opened Chunks
  import opened Scanners

  /** ScopeType. */
  datatype Scope = Global | ClassScope | Func

  /** The component classes Component.create can produce. */
  datatype Kind =
    | Label
    | MiscStatement
    | ClassForwardDeclaration      // CppClassForwardDeclaration
    | UsingStatement
    | FunctionDeclaration
    | MemberFunctionDeclaration
    | Preprocessor                 // PreprocessorComponent
    | Namespace                    // NamespaceComponent
    | ClassDefinition              // CppClassDefinition
    | ControlBlock
    | FunctionDefinition
    | MemberFunctionDefinition

  /** A Block: a stripped chunk and the scope its components live in. */
  datatype Block = Block(chunk: Chunk, scope: Scope)

  /** A component: its class, its stripped chunk, its name (absent for the
    * classes without a `name` attribute; a lazily computed name keeps the
    * error its computation raises), and, for the classes that have them,
    * its inner block and its prefix (the text before the inner block). */
  datatype Comp = Comp(kind: Kind, chunk: Chunk, name: Option<Result<string>>,
                       inner: Option<Block>, prefix: Option<Chunk>)

  /** What Component.create decided: the class and the offsets of the chunk
    * it hands to that class's constructor (before the constructor strips
    * it). */
  datatype Carved = Carved(kind: Kind, a: nat, b: nat)

  /** One iteration of the loop of Component.create: either it ends the
    * loop with a result, or it moves on to offset n with collected text s. */
  datatype Move = Done(r: Result<Carved>) | Next(n: nat, s: string)

  // ---------------------------------------------------------------------
  // Classification

  /** The label test: a single ':' ends the collected text, which holds no
    * 'class' and no '()', and the current character is not a second ':'. */
  predicate IsLabelEnd(s: string, c: char) {
    !Contains(s, "class") && !Contains(s, "()") && c != ':' &&
    EndsWith(s, ":") && !EndsWith(s, "::")
  }

  /** The class of a statement ending in ';', from the collected text. */
  function StatementKind(s: string, scope: Scope): Kind {
    if scope == Func then MiscStatement
    else if Contains(s, "class") then ClassForwardDeclaration
    else if Contains(s, "using") then UsingStatement
    else if Contains(s, "()") then
      (if scope == Global then FunctionDeclaration else MemberFunctionDeclaration)
    else MiscStatement
  }

  /** ControlBlock.KEYWORDS among the tokens before a '{'. */
  predicate HasControlKeyword(toks: seq<string>) {
    "if" in toks || "for" in toks || "while" in toks || "do" in toks
  }

  /** A '{' after '()': a control block, a function definition, or (for a
    * lambda inside a function) no component at all. */
  function Braced(toks: seq<string>, s: string, scope: Scope): Result<Kind> {
    if HasControlKeyword(toks) then Ok(ControlBlock)
    else if scope == Func && !Contains(s, "[]") then Err(ParsingException)
    else if scope == Global then Ok(FunctionDefinition)
    else if scope == ClassScope then Ok(MemberFunctionDefinition)
    else Err(ComponentCreationError)
  }

  /** The character at offset j opens a line whose stripped text starts
    * with '#'. */
  predicate AtDirective(ls: seq<string>, j: nat)
    requires |ls| > 0 && j <= Total(ls)
  {
    var p := PosAt(ls, j);
    p.col == 0 && StartsWith(ls[p.line], "#")
  }

  /** A line continues a directive when, without its last character, it
    * ends with a backslash. */
  predicate Continued(l: string) {
    |l| > 0 && EndsWith(l[..|l| - 1], "\\")
  }

  /** The loop of PreprocessorComponent.create over the lines k..last: the
    * offset of the end of the first line that is not continued. */
  function DirectiveEnd(ls: seq<string>, k: nat, last: nat): (r: Result<nat>)
    requires k <= |ls| && last < |ls|
    ensures r.Ok? ==> k < |ls| && LineStart(ls, k + 1) <= r.value <= Total(ls)
    ensures r.Err? ==> r.error == ParsingException
    decreases |ls| - k
  {
    if k > last then Err(ParsingException)
    else
      LineStartMono(ls, k, k + 1);
      LineStartMono(ls, k + 1, |ls|);
      if !Continued(ls[k]) then Ok(LineStart(ls, k + 1))
      else
        var r := DirectiveEnd(ls, k + 1, last);
        if r.Ok? then LineStartMono(ls, k + 1, k + 2); r else r
  }

  /** PreprocessorComponent.create(chunk[pos:]) for the directive at j in a
    * chunk ending at hi: from j to the end of the directive's last line,
    * which may lie beyond hi. */
  function Directive(ls: seq<string>, j: nat, hi: nat): (r: Result<Carved>)
    requires WellFormed(ls) && |ls| > 0 && j <= hi <= Total(ls) && AtDirective(ls, j)
    ensures r.Ok? ==> r.value.kind == Preprocessor && r.value.a == j <= r.value.b <= Total(ls)
  {
    PosAtSpec(ls, j);
    match DirectiveEnd(ls, PosAt(ls, j).line, PosAt(ls, hi).line)
    case Ok(e) => Ok(Carved(Preprocessor, j, e))
    case Err(x) => Err(x)
  }

  /** The check after a class body: the first character after the '}' that
    * is not ASCII whitespace must be a ';'. */
  function ClassEnd(t: string, hi: nat, m: nat): (r: Result<nat>)
    requires m <= hi <= |t|
    ensures r.Ok? ==> m <= r.value < hi && t[r.value] == ';'
    ensures r.Err? ==> r.error == ParsingException
    decreases hi - m
  {
    if m == hi then Err(ParsingException)
    else if t[m] == ';' then Ok(m)
    else if !IsAsciiSpace(t[m]) then Err(ParsingException)
    else ClassEnd(t, hi, m + 1)
  }

  /** A carved chunk starts at lo and stays inside the chunk, except for a
    * directive, which starts later and may run past hi. */
  predicate CarvedIn(ls: seq<string>, lo: nat, hi: nat, cv: Carved) {
    lo <= cv.a <= cv.b <= Total(ls) &&
    (cv.kind != Preprocessor ==> cv.a == lo && cv.b <= hi)
  }

  /** One iteration of Component.create at offset j of the chunk [lo, hi),
    * with collected text s. */
  function CreateMove(ls: seq<string>, lo: nat, hi: nat, scope: Scope, j: nat, s: string): (m: Move)
    requires WellFormed(ls) && |ls| > 0 && lo <= j < hi <= Total(ls)
    ensures m.Next? ==> j < m.n <= hi
    ensures m.Done? && m.r.Ok? ==> CarvedIn(ls, lo, hi, m.r.value)
  {
    var t := Flat(ls);
    var c := t[j];
    if IsLabelEnd(s, c) then Done(Ok(Carved(Label, lo, j)))
    else if c == ';' then Done(Ok(Carved(StatementKind(s + ";", scope), lo, j + 1)))
    else if AtDirective(ls, j) then Done(Directive(ls, j, hi))
    else if IsAsciiSpace(c) then Next(j + 1, s)
    else if c == '<' && scope != Func then AngleMove(t, hi, j, s)
    else if c == '(' || c == '[' then BracketMove(t, hi, j, s)
    else if c == '{' then BraceMove(ls, lo, hi, scope, j, s)
    else Next(j + 1, s + [c])
  }

  /** A '<' outside a function: a template argument list is skipped when
    * find_pair (no ';' allowed) matches it; otherwise the '<' is passed. */
  function AngleMove(t: string, hi: nat, j: nat, s: string): (m: Move)
    requires j < hi <= |t|
    ensures m.Next? ==> j < m.n <= hi
    ensures m.Done? ==> m.r.Err?
  {
    match PairScan(t, hi, j, '<', '>', 0, false)
    case Ok(e) => Next(e + 1, s + "<>")
    case Err(ParsingException) => Next(j + 1, s)
    case Err(x) => Done(Err(x))
  }

  /** A '(' or '[': the bracketed text is skipped and recorded as "()" or
    * "[]". */
  function BracketMove(t: string, hi: nat, j: nat, s: string): (m: Move)
    requires j < hi <= |t| && (t[j] == '(' || t[j] == '[')
    ensures m.Next? ==> j < m.n <= hi
    ensures m.Done? ==> m.r.Err?
  {
    var c := t[j];
    match PairScan(t, hi, j, c, CloseOf(c), 0, true)
    case Ok(e) => Next(e + 1, s + [c, CloseOf(c)])
    case Err(x) => Done(Err(x))
  }

  /** A '{': the scope tokens before it are read and its match is found;
    * then a namespace, a class definition (whose '}' must be followed by a
    * ';'), a control block or function definition when '()' came before,
    * or else the braces are passed over. */
  function BraceMove(ls: seq<string>, lo: nat, hi: nat, scope: Scope, j: nat, s: string): (m: Move)
    requires WellFormed(ls) && |ls| > 0 && lo <= j < hi <= Total(ls)
    ensures m.Next? ==> j < m.n <= hi
    ensures m.Done? && m.r.Ok? ==> CarvedIn(ls, lo, hi, m.r.value)
  {
    var t := Flat(ls);
    match ScopeTokensOf(ls, Span(ls, lo, j))
    case Err(x) => Done(Err(x))
    case Ok(toks) =>
      match PairScan(t, hi, j, '{', '}', 0, true)
      case Err(x) => Done(Err(x))
      case Ok(e) => BraceTail(ls, lo, hi, scope, toks, s, e)
  }

  /** What follows once the '{' is matched by the '}' at e. */
  function BraceTail(ls: seq<string>, lo: nat, hi: nat, scope: Scope, toks: seq<string>, s: string, e: nat): (m: Move)
    requires WellFormed(ls) && |ls| > 0 && lo <= e < hi <= Total(ls)
    ensures m.Next? ==> e < m.n <= hi
    ensures m.Done? && m.r.Ok? ==> CarvedIn(ls, lo, hi, m.r.value)
  {
    if Contains(s, "namespace") then Done(Ok(Carved(Namespace, lo, e + 1)))
    else if Contains(s, "class") then
      Done(match ClassEnd(Flat(ls), hi, e + 1)
           case Ok(m) => Ok(Carved(ClassDefinition, lo, m + 1))
           case Err(x) => Err(x))
    else if Contains(s, "()") then
      Done(match Braced(toks, s, scope)
           case Ok(k) => Ok(Carved(k, lo, e + 1))
           case Err(x) => Err(x))
    else Next(e + 1, s)
  }

  /** The loop of Component.create from offset j: running off the chunk's
    * end raises ComponentCreationError. */
  function CreateScan(ls: seq<string>, lo: nat, hi: nat, scope: Scope, j: nat, s: string): (r: Result<Carved>)
    requires WellFormed(ls) && |ls| > 0 && lo <= j <= hi <= Total(ls)
    ensures r.Ok? ==> CarvedIn(ls, lo, hi, r.value)
    decreases hi - j
  {
    if j == hi then Err(ComponentCreationError)
    else
      match CreateMove(ls, lo, hi, scope, j, s)
      case Done(r) => r
      case Next(n, s') => CreateScan(ls, lo, hi, scope, n, s')
  }

  // ---------------------------------------------------------------------
  // The constructors

  /** Label.name: the first token. */
  function FirstToken(ls: seq<string>, d: Chunk): Result<string>
    requires Valid(ls, d)
  {
    var toks := Tokens(Content(ls, d));
    if |toks| == 0 then Err(IndexError) else Ok(toks[0])
  }

  /** CppClassForwardDeclaration's name: the last token. */
  function LastToken(ls: seq<string>, d: Chunk): Result<string>
    requires Valid(ls, d)
  {
    var toks := Tokens(Content(ls, d));
    if |toks| == 0 then Err(IndexError) else Ok(toks[|toks| - 1])
  }

  /** The name of a function declaration or definition: the last scope
    * token before the first '(' found by find_in_scope. */
  function NameBeforeParen(ls: seq<string>, d: Chunk): Result<string>
    requires Valid(ls, d) && |ls| > 0
  {
    match ScopeFindIn(ls, d, "(")
    case Err(e) => Err(e)
    case Ok(fp) =>
      match ScopeTokensOf(ls, Span(ls, Lo(ls, d), fp))
      case Err(e) => Err(e)
      case Ok(toks) => if |toks| == 0 then Err(IndexError) else Ok(toks[|toks| - 1])
  }

  /** Index of the first occurrence of x in xs (list.index). */
  function IndexOf(xs: seq<string>, x: string): (i: nat)
    requires x in xs
    ensures i < |xs| && xs[i] == x && x !in xs[..i]
  {
    if xs[0] == x then 0
    else
      var i := IndexOf(xs[1..], x);
      assert xs[..i + 1] == [xs[0]] + xs[1..][..i];
      i + 1
  }

  /** CppClassDefinition._find_name: the scope token after the first
    * 'class' in the prefix. */
  function ClassName(ls: seq<string>, p: Chunk): Result<string>
    requires Valid(ls, p) && |ls| > 0
  {
    match ScopeTokensOf(ls, p)
    case Err(e) => Err(e)
    case Ok(toks) =>
      if "class" !in toks then Err(ValueError)
      else
        var i := IndexOf(toks, "class");
        if i + 1 == |toks| then Err(IndexError) else Ok(toks[i + 1])
  }

  /** _find_block, with the Block constructor's strip: from the first '{'
    * find_in_scope finds to the end of the chunk (to one before it for a
    * class, leaving out the ';'). */
  function InnerChunk(ls: seq<string>, d: Chunk, dropLast: bool): (r: Result<Chunk>)
    requires Valid(ls, d) && |ls| > 0
    ensures r.Ok? ==> Valid(ls, r.value) && Lo(ls, d) <= Lo(ls, r.value) < Hi(ls, r.value) <= Hi(ls, d)
    ensures r.Ok? ==> Flat(ls)[Lo(ls, r.value)] == '{'
  {
    match ScopeFindIn(ls, d, "{")
    case Err(e) => Err(e)
    case Ok(bs) =>
      var end := if dropLast then Hi(ls, d) - 1 else Hi(ls, d);
      var c := Span(ls, bs, end);
      var r := StrippedChunk(ls, c);
      if r.Ok? then
        assert Flat(ls)[bs..bs + 1][0] == Flat(ls)[bs];
        StrippedChunkInside(ls, c);
        StrippedFromBrace(ls, c);
        r
      else r
  }

  /** The constructor of each class, given the stripped chunk d. */
  function Shape(ls: seq<string>, kind: Kind, d: Chunk): (r: Result<Comp>)
    requires Valid(ls, d) && |ls| > 0
    ensures r.Ok? ==> r.value.kind == kind && r.value.chunk == d
  {
    match kind
    case Label => Ok(Comp(kind, d, Some(FirstToken(ls, d)), None, None))
    case ClassForwardDeclaration =>
      (match LastToken(ls, d)
       case Err(e) => Err(e)
       case Ok(n) => Ok(Comp(kind, d, Some(Ok(n)), None, None)))
    case FunctionDeclaration => Ok(Comp(kind, d, Some(NameBeforeParen(ls, d)), None, None))
    case MemberFunctionDeclaration => Ok(Comp(kind, d, Some(NameBeforeParen(ls, d)), None, None))
    case Namespace =>
      (match InnerChunk(ls, d, false)
       case Err(e) => Err(e)
       case Ok(b) => Ok(Comp(kind, d, None, Some(Block(b, Global)), Some(Span(ls, Lo(ls, d), Lo(ls, b))))))
    case ControlBlock =>
      (match InnerChunk(ls, d, false)
       case Err(e) => Err(e)
       case Ok(b) => Ok(Comp(kind, d, None, Some(Block(b, ClassScope)), Some(Span(ls, Lo(ls, d), Lo(ls, b))))))
    case ClassDefinition =>
      (match InnerChunk(ls, d, true)
       case Err(e) => Err(e)
       case Ok(b) =>
         var p := Span(ls, Lo(ls, d), Lo(ls, b));
         match ClassName(ls, p)
         case Err(e) => Err(e)
         case Ok(n) => Ok(Comp(kind, d, Some(Ok(n)), Some(Block(b, ClassScope)), Some(p))))
    case FunctionDefinition => FunctionShape(ls, kind, d)
    case MemberFunctionDefinition => FunctionShape(ls, kind, d)
    case _ => Ok(Comp(kind, d, None, None, None))
  }

  /** FunctionDefinition's constructor: inner block in function scope,
    * prefix, then the name. */
  function FunctionShape(ls: seq<string>, kind: Kind, d: Chunk): (r: Result<Comp>)
    requires Valid(ls, d) && |ls| > 0
    ensures r.Ok? ==> r.value.kind == kind && r.value.chunk == d
  {
    match InnerChunk(ls, d, false)
    case Err(e) => Err(e)
    case Ok(b) =>
      match NameBeforeParen(ls, d)
      case Err(e) => Err(e)
      case Ok(n) => Ok(Comp(kind, d, Some(Ok(n)), Some(Block(b, Func)), Some(Span(ls, Lo(ls, d), Lo(ls, b)))))
  }

  /** Component.__init__ strips the chunk it is given, then the class's
    * constructor runs. */
  function Build(ls: seq<string>, kind: Kind, c: Chunk): (r: Result<Comp>)
    requires Valid(ls, c) && |ls| > 0
    ensures r.Ok? ==> r.value.kind == kind && Valid(ls, r.value.chunk) &&
                      Lo(ls, c) <= Lo(ls, r.value.chunk) < Hi(ls, r.value.chunk) <= Hi(ls, c)
  {
    match StrippedChunk(ls, c)
    case Err(e) => Err(e)
    case Ok(d) =>
      StrippedChunkInside(ls, c);
      Shape(ls, kind, d)
  }

  /** Component.create on chunk c: the component it returns lies in c and
    * is not empty (a directive may run past c's end). */
  function Create(ls: seq<string>, c: Chunk, scope: Scope): (r: Result<Comp>)
    requires Valid(ls, c) && |ls| > 0
    ensures r.Ok? ==> Valid(ls, r.value.chunk) &&
                      Lo(ls, c) <= Lo(ls, r.value.chunk) < Hi(ls, r.value.chunk)
    ensures r.Ok? && r.value.kind != Preprocessor ==> Hi(ls, r.value.chunk) <= Hi(ls, c)
  {
    match CreateScan(ls, Lo(ls, c), Hi(ls, c), scope, Lo(ls, c), "")
    case Err(e) => Err(e)
    case Ok(cv) => Build(ls, cv.kind, Span(ls, cv.a, cv.b))
  }

  // ---------------------------------------------------------------------
  // Block.sub_components

  /** The loop of Block.sub_components from offset pos, creating components
    * in chunk [pos, stop): ComponentCreationError ends the list, any other
    * error propagates, and a start after stop is the ValueError of the
    * Chunk constructor. */
  function SubsFrom(ls: seq<string>, scope: Scope, pos: nat, stop: nat): (r: Result<seq<Comp>>)
    requires WellFormed(ls) && |ls| > 0 && pos <= Total(ls) && stop <= Total(ls)
    decreases Total(ls) - pos
  {
    if pos > stop then Err(ValueError)
    else
      match Create(ls, Span(ls, pos, stop), scope)
      case Err(ComponentCreationError) => Ok([])
      case Err(e) => Err(e)
      case Ok(comp) =>
        match SubsFrom(ls, scope, Hi(ls, comp.chunk), stop)
        case Err(e) => Err(e)
        case Ok(rest) => Ok([comp] + rest)
  }

  /** Block.sub_components: an empty block raises IndexError; a block
    * starting with '{' is walked from after it, up to before a closing
    * '}' when it ends with one. */
  function SubComponents(ls: seq<string>, b: Block): (r: Result<seq<Comp>>)
    requires Valid(ls, b.chunk) && |ls| > 0
  {
    if Lo(ls, b.chunk) == Hi(ls, b.chunk) then Err(IndexError)
    else SubsFrom(ls, b.scope, WalkStart(ls, b.chunk), WalkStop(ls, b.chunk))
  }

  /** Where the walk of a non-empty block starts: after an opening '{'. */
  function WalkStart(ls: seq<string>, c: Chunk): (n: nat)
    requires Valid(ls, c) && Lo(ls, c) < Hi(ls, c)
    ensures Lo(ls, c) <= n <= Hi(ls, c)
  {
    if Flat(ls)[Lo(ls, c)] == '{' then Lo(ls, c) + 1 else Lo(ls, c)
  }

  /** Where it stops: before a closing '}' of a block opened by '{'. */
  function WalkStop(ls: seq<string>, c: Chunk): (n: nat)
    requires Valid(ls, c) && Lo(ls, c) < Hi(ls, c)
    ensures n <= Hi(ls, c)
  {
    var t, lo, hi := Flat(ls), Lo(ls, c), Hi(ls, c);
    if t[lo] == '{' && t[hi - 1] == '}' then hi - 1 else hi
  }

  // ---------------------------------------------------------------------
  // Component.create, step by step

  /** What create hands to a constructor, as the source holds it: a class
    * and a chunk. */
  datatype Cut = Cut(kind: Kind, chunk: Chunk)

  function AsCut(ls: seq<string>, r: Result<Carved>): Result<Cut>
    requires WellFormed(ls) && |ls| > 0 && (r.Ok? ==> r.value.a <= r.value.b <= Total(ls))
  {
    match r
    case Ok(cv) => Ok(Cut(cv.kind, Span(ls, cv.a, cv.b)))
    case Err(e) => Err(e)
  }

  /** The outcome of one iteration of the loop of create: stop with a
    * result, or go on at `next` with collected text s. */
  datatype Step = Stop(r: Result<Cut>) | Go(next: Pos, s: string)

  /** A step agrees with the specified move. */
  predicate StepIs(ls: seq<string>, st: Step, m: Move)
    requires WellFormed(ls) && |ls| > 0
    requires m.Done? && m.r.Ok? ==> m.r.value.a <= m.r.value.b <= Total(ls)
    requires m.Next? ==> m.n <= Total(ls)
  {
    match m
    case Done(r) => st == Stop(AsCut(ls, r))
    case Next(n, s) => st == Go(PosAt(ls, n), s)
  }

  /** The position of the offset j that `pos` is at. */
  predicate Walking(ls: seq<string>, c: Chunk, j: nat, pos: Pos) {
    Valid(ls, c) && |ls| > 0 && Lo(ls, c) <= j < Hi(ls, c) && pos == PosAt(ls, j) &&
    Normal(ls, pos) && Offset(ls, pos) == j
  }

  /** `pos += 1` inside the file. */
  method Forward(ls: seq<string>, pos: Pos, ghost j: nat) returns (r: Pos)
    requires WellFormed(ls) && |ls| > 0 && j < Total(ls) && pos == PosAt(ls, j)
    ensures r == PosAt(ls, j + 1)
  {
    PosAtSpec(ls, j);
    var n := Add(ls, pos, 1);
    r := n.value;
  }

  /** The loop of Component.create up to the choice of a class. */
  method CreateCarve(ls: seq<string>, c: Chunk, scope: Scope) returns (r: Result<Cut>)
    requires Shaped(ls) && Valid(ls, c) && |ls| > 0
    ensures r == AsCut(ls, CreateScan(ls, Lo(ls, c), Hi(ls, c), scope, Lo(ls, c), ""))
  {
    ghost var lo, hi := Lo(ls, c), Hi(ls, c);
    ghost var goal := CreateScan(ls, lo, hi, scope, lo, "");
    var s := "";
    var pos := c.start;
    ghost var j := lo;
    OffsetPosAt(ls, c.start);
    while true
      invariant lo <= j <= hi && pos == PosAt(ls, j)
      invariant CreateScan(ls, lo, hi, scope, j, s) == goal
      decreases hi - j
    {
      PosAtSpec(ls, j);
      var ch := CharAtPos(ls, c, pos);
      if ch.Err? {
        return Err(ComponentCreationError);
      }
      var st := CreateStep(ls, c, scope, pos, ch.value, s, j);
      ghost var m := CreateMove(ls, lo, hi, scope, j, s);
      match st
      case Stop(res) =>
        return res;
      case Go(next, s') =>
        j := m.n;
        pos, s := next, s';
    }
  }

  /** One iteration of the loop of create, at the character ch at pos. */
  method CreateStep(ls: seq<string>, c: Chunk, scope: Scope, pos: Pos, ch: char, s: string, ghost j: nat)
    returns (st: Step)
    requires Shaped(ls) && Walking(ls, c, j, pos) && ch == Flat(ls)[j]
    ensures StepIs(ls, st, CreateMove(ls, Lo(ls, c), Hi(ls, c), scope, j, s))
  {
    ghost var lo, hi := Lo(ls, c), Hi(ls, c);
    ghost var m := CreateMove(ls, lo, hi, scope, j, s);
    if IsLabelEnd(s, ch) {
      assert m == Done(Ok(Carved(Label, lo, j)));
      st := CutBefore(ls, c, pos, Label, j);
    } else if ch == ';' {
      assert m == Done(Ok(Carved(StatementKind(s + ";", scope), lo, j + 1)));
      st := CutThrough(ls, c, pos, StatementKind(s + ";", scope), j);
    } else if pos.col == 0 && StartsWith(ls[pos.line], "#") {
      assert m == Done(Directive(ls, j, hi));
      var r := DirectiveCut(ls, c, pos, j);
      st := Stop(r);
    } else if IsAsciiSpace(ch) {
      assert m == Next(j + 1, s);
      var p1 := Forward(ls, pos, j);
      st := Go(p1, s);
    } else if ch == '<' && scope != Func {
      assert m == AngleMove(Flat(ls), hi, j, s);
      st := AngleStep(ls, c, pos, s, j);
    } else if ch == '(' || ch == '[' {
      assert m == BracketMove(Flat(ls), hi, j, s);
      st := BracketStep(ls, c, pos, ch, s, j);
    } else if ch == '{' {
      assert m == BraceMove(ls, lo, hi, scope, j, s);
      st := BraceStep(ls, c, scope, pos, s, j);
    } else {
      assert m == Next(j + 1, s + [ch]);
      var p1 := Forward(ls, pos, j);
      st := Go(p1, s + [ch]);
    }
  }

  /** `chunk[:pos]` handed to the constructor of `kind`. */
  method CutBefore(ls: seq<string>, c: Chunk, pos: Pos, kind: Kind, ghost j: nat) returns (st: Step)
    requires Walking(ls, c, j, pos)
    ensures st == Stop(AsCut(ls, Ok(Carved(kind, Lo(ls, c), j))))
  {
    var sl := Slice(ls, c, Default, At(pos));
    st := Stop(Ok(Cut(kind, sl.value)));
  }

  /** `chunk[:pos + 1]` handed to the constructor of `kind`. */
  method CutThrough(ls: seq<string>, c: Chunk, pos: Pos, kind: Kind, ghost j: nat) returns (st: Step)
    requires Walking(ls, c, j, pos)
    ensures st == Stop(AsCut(ls, Ok(Carved(kind, Lo(ls, c), j + 1))))
  {
    var p1 := Forward(ls, pos, j);
    PosAtSpec(ls, j + 1);
    var sl := Slice(ls, c, Default, At(p1));
    st := Stop(Ok(Cut(kind, sl.value)));
  }

  /** find_pair at the bracket at offset j is the pair scan from it. */
  lemma PairEndAt(ls: seq<string>, c: Chunk, pos: Pos, j: nat, semicolon: bool)
    requires Walking(ls, c, j, pos) && IsOpen(Flat(ls)[j])
    ensures PairEnd(ls, c, pos, semicolon) ==
            PairScan(Flat(ls), Hi(ls, c), j, Flat(ls)[j], CloseOf(Flat(ls)[j]), 0, semicolon)
  {
    PosAtSpec(ls, j);
  }

  method AngleStep(ls: seq<string>, c: Chunk, pos: Pos, s: string, ghost j: nat) returns (st: Step)
    requires Walking(ls, c, j, pos) && Flat(ls)[j] == '<'
    ensures StepIs(ls, st, AngleMove(Flat(ls), Hi(ls, c), j, s))
  {
    PairEndAt(ls, c, pos, j, false);
    var e := FindPair(ls, c, pos, false);
    match e
    case Ok(q) =>
      ghost var k := PairScan(Flat(ls), Hi(ls, c), j, '<', '>', 0, false).value;
      var p1 := Forward(ls, q, k);
      st := Go(p1, s + "<>");
    case Err(x) =>
      if x == ParsingException {
        var p1 := Forward(ls, pos, j);
        st := Go(p1, s);
      } else {
        st := Stop(Err(x));
      }
  }

  method BracketStep(ls: seq<string>, c: Chunk, pos: Pos, ch: char, s: string, ghost j: nat) returns (st: Step)
    requires Walking(ls, c, j, pos) && Flat(ls)[j] == ch && (ch == '(' || ch == '[')
    ensures StepIs(ls, st, BracketMove(Flat(ls), Hi(ls, c), j, s))
  {
    PairEndAt(ls, c, pos, j, true);
    var e := FindPair(ls, c, pos, true);
    match e
    case Ok(q) =>
      ghost var k := PairScan(Flat(ls), Hi(ls, c), j, ch, CloseOf(ch), 0, true).value;
      var p1 := Forward(ls, q, k);
      st := Go(p1, s + [ch, CloseOf(ch)]);
    case Err(x) =>
      st := Stop(Err(x));
  }

  /** PreprocessorComponent.create(chunk[pos:]): the first line of the
    * sub-chunk that is not continued ends the directive. */
  method DirectiveCut(ls: seq<string>, c: Chunk, pos: Pos, ghost j: nat) returns (r: Result<Cut>)
    requires Walking(ls, c, j, pos) && pos.col == 0 && StartsWith(ls[pos.line], "#")
    ensures r == AsCut(ls, Directive(ls, j, Hi(ls, c)))
  {
    var sub := Slice(ls, c, At(pos), Default);
    assert sub == Ok(Span(ls, j, Hi(ls, c)));
    var chunk := sub.value;
    ghost var last := chunk.end.line;
    OrderIff(ls, chunk.start, chunk.end);
    var k := chunk.start.line;
    while k <= chunk.end.line
      invariant pos.line <= k <= last + 1
      invariant DirectiveEnd(ls, k, last) == DirectiveEnd(ls, pos.line, last)
      decreases last + 1 - k
    {
      if !Continued(ls[k]) {
        var end := ChunkPos(ls, k, Keyword("end"));
        LineStartMono(ls, pos.line, k + 1);
        OffsetPosAt(ls, end.value);
        var pc := NewChunk(ls, chunk.start, end.value);
        return Ok(Cut(Preprocessor, pc.value));
      }
      k := k + 1;
    }
    return Err(ParsingException);
  }

  /** The walk after a class body's '}' (from offset m) to the ';'. */
  method ClassEndWalk(ls: seq<string>, c: Chunk, start: Pos, ghost m: nat) returns (r: Result<Pos>)
    requires Valid(ls, c) && |ls| > 0 && Lo(ls, c) <= m <= Hi(ls, c) && start == PosAt(ls, m)
    ensures r == AsPos(ls, ClassEnd(Flat(ls), Hi(ls, c), m))
  {
    ghost var t, hi := Flat(ls), Hi(ls, c);
    var q := start;
    ghost var k := m;
    while true
      invariant m <= k <= hi && q == PosAt(ls, k)
      invariant ClassEnd(t, hi, k) == ClassEnd(t, hi, m)
      decreases hi - k
    {
      PosAtSpec(ls, k);
      var ch := CharAtPos(ls, c, q);
      if ch.Err? {
        return Err(ParsingException);
      }
      if ch.value == ';' {
        return Ok(q);
      }
      if !IsAsciiSpace(ch.value) {
        return Err(ParsingException);
      }
      q := Forward(ls, q, k);
      k := k + 1;
    }
  }

  /** The '{' branch of create: scope tokens before it, then its match. */
  method BraceStep(ls: seq<string>, c: Chunk, scope: Scope, pos: Pos, s: string, ghost j: nat) returns (st: Step)
    requires Walking(ls, c, j, pos) && Flat(ls)[j] == '{'
    ensures StepIs(ls, st, BraceMove(ls, Lo(ls, c), Hi(ls, c), scope, j, s))
  {
    ghost var t, lo, hi := Flat(ls), Lo(ls, c), Hi(ls, c);
    var pre := Slice(ls, c, Default, At(pos));
    assert pre == Ok(Span(ls, lo, j));
    var toks := ScopeTokens(ls, pre.value);
    if toks.Err? {
      return Stop(Err(toks.error));
    }
    PairEndAt(ls, c, pos, j, true);
    var e := FindPair(ls, c, pos, true);
    if e.Err? {
      return Stop(Err(e.error));
    }
    ghost var k := PairScan(t, hi, j, '{', '}', 0, true).value;
    PosAtSpec(ls, k);
    assert e.value == PosAt(ls, k);
    assert BraceMove(ls, lo, hi, scope, j, s) == BraceTail(ls, lo, hi, scope, toks.value, s, k);
    st := BraceClassify(ls, c, scope, toks.value, s, e.value, k);
  }

  /** After the '{' is matched by the '}' at `close`. */
  method BraceClassify(ls: seq<string>, c: Chunk, scope: Scope, toks: seq<string>, s: string, close: Pos, ghost k: nat)
    returns (st: Step)
    requires Walking(ls, c, k, close)
    ensures StepIs(ls, st, BraceTail(ls, Lo(ls, c), Hi(ls, c), scope, toks, s, k))
  {
    ghost var lo, hi := Lo(ls, c), Hi(ls, c);
    ghost var m := BraceTail(ls, lo, hi, scope, toks, s, k);
    if Contains(s, "namespace") {
      assert m == Done(Ok(Carved(Namespace, lo, k + 1)));
      st := CutThrough(ls, c, close, Namespace, k);
    } else if Contains(s, "class") {
      assert m.r == (match ClassEnd(Flat(ls), hi, k + 1)
                     case Ok(e) => Ok(Carved(ClassDefinition, lo, e + 1))
                     case Err(x) => Err(x));
      st := ClassCut(ls, c, close, k);
    } else if Contains(s, "()") {
      var kind := Braced(toks, s, scope);
      if kind.Err? {
        assert m == Done(Err(kind.error));
        return Stop(Err(kind.error));
      }
      assert m == Done(Ok(Carved(kind.value, lo, k + 1)));
      st := CutThrough(ls, c, close, kind.value, k);
    } else {
      assert m == Next(k + 1, s);
      var p1 := Forward(ls, close, k);
      st := Go(p1, s);
    }
  }

  /** A class body must be followed by its ';', which ends the chunk. */
  method ClassCut(ls: seq<string>, c: Chunk, close: Pos, ghost k: nat) returns (st: Step)
    requires Walking(ls, c, k, close)
    ensures st == Stop(AsCut(ls, match ClassEnd(Flat(ls), Hi(ls, c), k + 1)
                                 case Ok(e) => Ok(Carved(ClassDefinition, Lo(ls, c), e + 1))
                                 case Err(x) => Err(x)))
  {
    var p1 := Forward(ls, close, k);
    var m := ClassEndWalk(ls, c, p1, k + 1);
    if m.Err? {
      return Stop(Err(m.error));
    }
    ghost var mk := ClassEnd(Flat(ls), Hi(ls, c), k + 1).value;
    PosAtSpec(ls, mk);
    st := CutThrough(ls, c, m.value, ClassDefinition, mk);
  }

  // ---------------------------------------------------------------------
  // The constructors, step by step

  /** Component.create: the loop, then the chosen class's constructor. */
  method CreateComponent(ls: seq<string>, c: Chunk, scope: Scope) returns (r: Result<Comp>)
    requires Shaped(ls) && Valid(ls, c) && |ls| > 0
    ensures r == Create(ls, c, scope)
  {
    var cut := CreateCarve(ls, c, scope);
    if cut.Err? {
      return Err(cut.error);
    }
    r := NewComponent(ls, cut.value.kind, cut.value.chunk);
  }

  /** Component.__init__ (strip), then the rest of the class's constructor. */
  method NewComponent(ls: seq<string>, kind: Kind, c: Chunk) returns (r: Result<Comp>)
    requires Shaped(ls) && Valid(ls, c) && |ls| > 0
    ensures r == Build(ls, kind, c)
  {
    var d := Chunks.Strip(ls, c);
    if d.Err? {
      return Err(d.error);
    }
    StrippedChunkInside(ls, c);
    r := ShapeComponent(ls, kind, d.value);
  }

  method ShapeComponent(ls: seq<string>, kind: Kind, d: Chunk) returns (r: Result<Comp>)
    requires Shaped(ls) && Valid(ls, d) && |ls| > 0
    ensures r == Shape(ls, kind, d)
  {
    match kind
    case Label =>
      var toks := Tokenize(ls, d);
      var name := if |toks| == 0 then Err(IndexError) else Ok(toks[0]);
      r := Ok(Comp(kind, d, Some(name), None, None));
    case ClassForwardDeclaration =>
      var toks := Tokenize(ls, d);
      if |toks| == 0 {
        return Err(IndexError);
      }
      r := Ok(Comp(kind, d, Some(Ok(toks[|toks| - 1])), None, None));
    case FunctionDeclaration =>
      var name := FunctionName(ls, d);
      r := Ok(Comp(kind, d, Some(name), None, None));
    case MemberFunctionDeclaration =>
      var name := FunctionName(ls, d);
      r := Ok(Comp(kind, d, Some(name), None, None));
    case Namespace =>
      r := BlockComponent(ls, kind, d, Global);
    case ControlBlock =>
      r := BlockComponent(ls, kind, d, ClassScope);
    case ClassDefinition =>
      r := ClassComponent(ls, d);
    case FunctionDefinition =>
      r := FunctionComponent(ls, kind, d);
    case MemberFunctionDefinition =>
      r := FunctionComponent(ls, kind, d);
    case _ =>
      r := Ok(Comp(kind, d, None, None, None));
  }

  /** NamespaceComponent and ControlBlock: inner block, then prefix. */
  method BlockComponent(ls: seq<string>, kind: Kind, d: Chunk, scope: Scope) returns (r: Result<Comp>)
    requires Shaped(ls) && Valid(ls, d) && |ls| > 0
    ensures r == match InnerChunk(ls, d, false)
                 case Err(e) => Err(e)
                 case Ok(b) => Ok(Comp(kind, d, None, Some(Block(b, scope)), Some(Span(ls, Lo(ls, d), Lo(ls, b)))))
  {
    var b := FindBlock(ls, d, false);
    if b.Err? {
      return Err(b.error);
    }
    var p := Prefix(ls, d, b.value);
    r := Ok(Comp(kind, d, None, Some(Block(b.value, scope)), Some(p)));
  }

  /** CppClassDefinition: inner block without the ';', prefix, name. */
  method ClassComponent(ls: seq<string>, d: Chunk) returns (r: Result<Comp>)
    requires Shaped(ls) && Valid(ls, d) && |ls| > 0
    ensures r == Shape(ls, ClassDefinition, d)
  {
    var b := FindBlock(ls, d, true);
    if b.Err? {
      return Err(b.error);
    }
    var p := Prefix(ls, d, b.value);
    var toks := ScopeTokens(ls, p);
    if toks.Err? {
      return Err(toks.error);
    }
    if "class" !in toks.value {
      return Err(ValueError);
    }
    var i := IndexOf(toks.value, "class");
    if i + 1 == |toks.value| {
      return Err(IndexError);
    }
    r := Ok(Comp(ClassDefinition, d, Some(Ok(toks.value[i + 1])), Some(Block(b.value, ClassScope)), Some(p)));
  }

  /** FunctionDefinition: inner block in function scope, prefix, name. */
  method FunctionComponent(ls: seq<string>, kind: Kind, d: Chunk) returns (r: Result<Comp>)
    requires Shaped(ls) && Valid(ls, d) && |ls| > 0
    ensures r == FunctionShape(ls, kind, d)
  {
    var b := FindBlock(ls, d, false);
    if b.Err? {
      return Err(b.error);
    }
    var p := Prefix(ls, d, b.value);
    var name := FunctionName(ls, d);
    if name.Err? {
      return Err(name.error);
    }
    r := Ok(Comp(kind, d, Some(Ok(name.value)), Some(Block(b.value, Func)), Some(p)));
  }

  /** `self.chunk[:self.inner_block.chunk.start]`. */
  method Prefix(ls: seq<string>, d: Chunk, b: Chunk) returns (p: Chunk)
    requires Valid(ls, d) && Valid(ls, b) && |ls| > 0 && Lo(ls, d) <= Lo(ls, b) <= Hi(ls, d)
    ensures p == Span(ls, Lo(ls, d), Lo(ls, b))
  {
    var sl := Slice(ls, d, Default, At(b.start));
    p := sl.value;
  }

  /** _find_block and the Block constructor's strip. */
  method FindBlock(ls: seq<string>, d: Chunk, dropLast: bool) returns (r: Result<Chunk>)
    requires Valid(ls, d) && |ls| > 0
    ensures r == InnerChunk(ls, d, dropLast)
  {
    var bs := FindInScope(ls, d, "{");
    if bs.Err? {
      return Err(bs.error);
    }
    ghost var k := ScopeFindIn(ls, d, "{").value;
    var sl := BlockSlice(ls, d, bs.value, dropLast, k);
    r := Chunks.Strip(ls, sl);
  }

  /** `self.chunk[block_start:]`, or `self.chunk[block_start:end]` with
    * `end = self.chunk.end - 1` for a class. */
  method BlockSlice(ls: seq<string>, d: Chunk, bs: Pos, dropLast: bool, ghost k: nat) returns (c: Chunk)
    requires Valid(ls, d) && |ls| > 0 && Lo(ls, d) <= k < Hi(ls, d) && bs == PosAt(ls, k)
    ensures c == Span(ls, k, if dropLast then Hi(ls, d) - 1 else Hi(ls, d))
  {
    PosAtSpec(ls, k);
    var sl: Result<Chunk>;
    if dropLast {
      var end := Sub(ls, d.end, 1);
      PosAtSpec(ls, Hi(ls, d) - 1);
      sl := Slice(ls, d, At(bs), At(end.value));
    } else {
      sl := Slice(ls, d, At(bs), Default);
    }
    c := sl.value;
  }

  /** The name of a function declaration or definition. */
  method FunctionName(ls: seq<string>, d: Chunk) returns (r: Result<string>)
    requires Valid(ls, d) && |ls| > 0
    ensures r == NameBeforeParen(ls, d)
  {
    var fp := FindInScope(ls, d, "(");
    if fp.Err? {
      return Err(fp.error);
    }
    ghost var k := ScopeFindIn(ls, d, "(").value;
    PosAtSpec(ls, k);
    var sl := Slice(ls, d, Default, At(fp.value));
    var toks := ScopeTokens(ls, sl.value);
    if toks.Err? {
      return Err(toks.error);
    }
    if |toks.value| == 0 {
      return Err(IndexError);
    }
    r := Ok(toks.value[|toks.value| - 1]);
  }

  // ---------------------------------------------------------------------
  // Block.sub_components, step by step

  /** Block.sub_components: skip an opening '{' and stop before a closing
    * '}', then create components one after another. */
  method BlockSubComponents(ls: seq<string>, b: Block) returns (r: Result<seq<Comp>>)
    requires Shaped(ls) && Valid(ls, b.chunk) && |ls| > 0
    ensures r == SubComponents(ls, b)
  {
    ghost var t, lo, hi := Flat(ls), Lo(ls, b.chunk), Hi(ls, b.chunk);
    OffsetPosAt(ls, b.chunk.start);
    var first := CharAtPos(ls, b.chunk, b.chunk.start);
    if first.Err? {
      return Err(IndexError);
    }
    if first.value == '{' {
      var pos, end, stop := InsideBraces(ls, b.chunk);
      r := SubsLoop(ls, b, pos, end, stop);
    } else {
      r := SubsLoop(ls, b, b.chunk.start, Default, hi);
    }
  }

  /** The bounds of the walk in a block that starts with '{': after it, and
    * before the block's last character when that is '}'. */
  method InsideBraces(ls: seq<string>, c: Chunk) returns (pos: Pos, end: Bound, ghost stop: nat)
    requires Valid(ls, c) && |ls| > 0 && Lo(ls, c) < Hi(ls, c)
    requires Flat(ls)[Lo(ls, c)] == '{'
    ensures Normal(ls, pos) && Offset(ls, pos) == WalkStart(ls, c) <= Total(ls)
    ensures stop == WalkStop(ls, c)
    ensures Bounded(ls, c, end, stop)
  {
    ghost var t, lo, hi := Flat(ls), Lo(ls, c), Hi(ls, c);
    OffsetPosAt(ls, c.start);
    pos := Forward(ls, c.start, lo);
    PosAtSpec(ls, lo + 1);
    var last := CharAtIndex(ls, c, -1);
    assert last == Ok(t[hi - 1]);
    end, stop := Default, hi;
    if last.value == '}' {
      var e := Sub(ls, c.end, 1);
      OffsetPosAt(ls, c.end);
      PosAtSpec(ls, hi - 1);
      end, stop := At(e.value), hi - 1;
    }
  }

  /** The stop bound of `self.chunk[pos:end]` lands at offset `stop`. */
  predicate Bounded(ls: seq<string>, c: Chunk, end: Bound, stop: nat)
    requires Valid(ls, c)
  {
    (end == Default && stop == Hi(ls, c)) ||
    (end.At? && Normal(ls, end.p) && Offset(ls, end.p) == stop <= Total(ls))
  }

  /** The components found so far in front of the outcome of the rest. */
  function Prepend(comps: seq<Comp>, r: Result<seq<Comp>>): Result<seq<Comp>> {
    match r
    case Ok(rest) => Ok(comps + rest)
    case Err(e) => Err(e)
  }

  lemma PrependTwice(a: seq<Comp>, b: seq<Comp>, r: Result<seq<Comp>>)
    ensures Prepend(a, Prepend(b, r)) == Prepend(a + b, r)
  {
    if r.Ok? {
      assert a + (b + r.value) == (a + b) + r.value;
    }
  }

  /** One round of the sub_components loop, when create succeeds. */
  lemma SubsFromCreated(ls: seq<string>, scope: Scope, pos: nat, stop: nat)
    requires WellFormed(ls) && |ls| > 0 && pos <= stop <= Total(ls)
    requires Create(ls, Span(ls, pos, stop), scope).Ok?
    ensures var comp := Create(ls, Span(ls, pos, stop), scope).value;
      pos < Hi(ls, comp.chunk) <= Total(ls) &&
      SubsFrom(ls, scope, pos, stop) == Prepend([comp], SubsFrom(ls, scope, Hi(ls, comp.chunk), stop))
  {
  }

  /** The loop of Block.sub_components from `start`, creating components in
    * `self.chunk[pos:end]`. */
  method SubsLoop(ls: seq<string>, b: Block, start: Pos, end: Bound, ghost stop: nat) returns (r: Result<seq<Comp>>)
    requires Shaped(ls) && Valid(ls, b.chunk) && |ls| > 0 && Normal(ls, start) && Offset(ls, start) <= Total(ls)
    requires Bounded(ls, b.chunk, end, stop)
    ensures r == SubsFrom(ls, b.scope, Offset(ls, start), stop)
  {
    ghost var goal := SubsFrom(ls, b.scope, Offset(ls, start), stop);
    var comps := [];
    var pos := start;
    if goal.Ok? {
      assert [] + goal.value == goal.value;
    }
    while true
      invariant Normal(ls, pos) && Offset(ls, pos) <= Total(ls)
      invariant goal == Prepend(comps, SubsFrom(ls, b.scope, Offset(ls, pos), stop))
      decreases Total(ls) - Offset(ls, pos)
    {
      OffsetPosAt(ls, pos);
      var sub := Slice(ls, b.chunk, At(pos), end);
      if sub.Err? {
        return Err(ValueError);
      }
      var comp := CreateComponent(ls, sub.value, b.scope);
      if comp.Err? {
        if comp.error == ComponentCreationError {
          assert comps + [] == comps;
          return Ok(comps);
        }
        return Err(comp.error);
      }
      SubsFromCreated(ls, b.scope, Offset(ls, pos), stop);
      PrependTwice(comps, [comp.value], SubsFrom(ls, b.scope, Hi(ls, comp.value.chunk), stop));
      comps := comps + [comp.value];
      pos := comp.value.chunk.end;
    }
  }
}
