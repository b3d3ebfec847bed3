/*
 * Chunk: the span of a file between two positions, in the stripped form of
 * its lines.  A chunk is the pair of its bounds; every operation takes the
 * file's stripped lines `ls` alongside it and is proved against the flat
 * text `Flat(ls)[Lo..Hi]` the chunk covers.
 */
module Chunks {
  import opened Errors
  import opened Text
  import opened Canonical
  import opened Position

  datatype Chunk = Chunk(start: Pos, end: Pos)

  /** One bound of a slice `chunk[start:stop]`: absent, a position, or an
    * int index relative to the chunk's start. */
  datatype Bound = Default | At(p: Pos) | Index(i: int)

  /** The column argument of Chunk.pos: an int, or a keyword. */
  datatype ColArg = Col(c: int) | Keyword(w: string)

  /** Both bounds are normal positions of the file, in order. */
  predicate Valid(ls: seq<string>, c: Chunk) {
    WellFormed(ls) && Normal(ls, c.start) && Normal(ls, c.end) &&
    Offset(ls, c.start) <= Offset(ls, c.end) <= Total(ls)
  }

  function Lo(ls: seq<string>, c: Chunk): nat
    requires c.start.line < |ls|
  {
    Offset(ls, c.start)
  }

  function Hi(ls: seq<string>, c: Chunk): nat
    requires c.end.line < |ls|
  {
    Offset(ls, c.end)
  }

  /** The characters a chunk covers. */
  function Content(ls: seq<string>, c: Chunk): string
    requires Valid(ls, c)
  {
    Flat(ls)[Lo(ls, c)..Hi(ls, c)]
  }

  /** The chunk between two flat offsets. */
  function Span(ls: seq<string>, a: nat, b: nat): (c: Chunk)
    requires WellFormed(ls) && |ls| > 0 && a <= b <= Total(ls)
    ensures Valid(ls, c) && Lo(ls, c) == a && Hi(ls, c) == b
  {
    PosAtSpec(ls, a);
    PosAtSpec(ls, b);
    Chunk(PosAt(ls, a), PosAt(ls, b))
  }

  lemma SliceJoin(t: string, a: nat, b: nat, c: nat)
    requires a <= b <= c <= |t|
    ensures t[a..b] + t[b..c] == t[a..c]
  {
  }

  /** The stripped lines of a file read by readlines have the shape chunks
    * rely on: every line but the last ends in its only '\n'. */
  lemma StrippedLinesShaped(text: string)
    ensures Shaped(StrippedLines(ReadLines(text)))
  {
    var raws := ReadLines(text);
    ReadLinesShape(text);
    UncommentLinesNewline(raws, false);
    var us := UncommentLines(raws, false);
    var ls := StrippedLines(raws);
    forall k | 0 <= k < |ls| - 1
      ensures |ls[k]| > 0 && ls[k][|ls[k]| - 1] == '\n'
    {
      StrippedLineShape(us[k]);
    }
    forall k, i | 0 <= k < |ls| && 0 <= i < |ls[k]| - 1
      ensures ls[k][i] != '\n'
    {
      StrippedLineShape(us[k]);
    }
  }

  /** A stripped line ends in '\n' when its line does, and holds no other '\n'. */
  lemma StrippedLineShape(u: string)
    ensures EndsWith(u, "\n") ==> |Stripped(u)| > 0 && Stripped(u)[|Stripped(u)| - 1] == '\n'
    ensures forall i :: 0 <= i < |Stripped(u)| - 1 ==> Stripped(u)[i] != '\n'
  {
    var l := Stripped(u);
    StrippedShape(u);
    if EndsWith(u, "\n") {
      assert l[|l| - 1..][0] == '\n';
    }
    if SingleSpaced(l) {
      SingleSpacedNoNewline(l);
    } else {
      SingleSpacedNoNewline(l[..|l| - 1]);
    }
  }

  lemma SingleSpacedNoNewline(s: string)
    requires SingleSpaced(s)
    ensures forall i :: 0 <= i < |s| ==> s[i] != '\n'
  {
    forall i | 0 <= i < |s|
      ensures s[i] != '\n'
    {
      assert NotSpace(s[i]) || s[i] == ' ';
    }
  }

  // ---------------------------------------------------------------------
  // Construction and size

  /** Chunk.__init__ with explicit bounds: ValueError when the start line
    * follows the end line, or on one line the start column follows the end
    * column; that is exactly when the start lies after the end. */
  function NewChunk(ls: seq<string>, start: Pos, end: Pos): (r: Result<Chunk>)
    requires WellFormed(ls) && Normal(ls, start) && Normal(ls, end)
    ensures r.Ok? <==> Offset(ls, start) <= Offset(ls, end)
    ensures r.Ok? ==> r.value == Chunk(start, end) && Valid(ls, r.value)
  {
    OrderIff(ls, start, end);
    OffsetPosAt(ls, end);
    if start.line > end.line then Err(ValueError)
    else if start.line == end.line && start.col > end.col then Err(ValueError)
    else Ok(Chunk(start, end))
  }

  /** Chunk.__init__ without bounds: from start_pos to end_pos of the file;
    * a file without lines has no end_pos (IndexError). */
  function WholeChunk(ls: seq<string>): (r: Result<Chunk>)
    requires WellFormed(ls)
    ensures r.Ok? <==> |ls| > 0
    ensures r.Ok? ==> Valid(ls, r.value) && Lo(ls, r.value) == 0 && Hi(ls, r.value) == Total(ls)
  {
    if |ls| == 0 then Err(IndexError)
    else
      MakePosSpec(ls, 0, 0);
      MakePosSpec(ls, -1, |ls[|ls| - 1]|);
      LineStartNext(ls, |ls| - 1);
      assert ls[..|ls|] == ls;
      assert ls[..0] == [];
      var s := MakePos(ls, 0, 0);
      var e := MakePos(ls, -1, |ls[|ls| - 1]|);
      if s.Err? || e.Err? then Err(IndexError)
      else NewChunk(ls, s.value, e.value)
  }

  /** Sum of the lengths of lines a..b-1. */
  function SumLens(ls: seq<string>, a: nat, b: nat): nat
    requires a <= b <= |ls|
    decreases b - a
  {
    if a == b then 0 else |ls[a]| + SumLens(ls, a + 1, b)
  }

  lemma {:induction false} SumLensSpan(ls: seq<string>, a: nat, b: nat)
    requires a <= b <= |ls|
    ensures LineStart(ls, a) + SumLens(ls, a, b) == LineStart(ls, b)
    decreases b - a
  {
    if a < b {
      LineStartNext(ls, a);
      SumLensSpan(ls, a + 1, b);
    }
  }

  /** Chunk.__len__ (index_range): the lengths of the chunk's lines, less
    * the part of the first line before the start and the part of the last
    * line after the end.  It is the number of characters covered. */
  function Len(ls: seq<string>, c: Chunk): (n: int)
    requires Valid(ls, c)
    ensures n == Hi(ls, c) - Lo(ls, c) == |Content(ls, c)|
  {
    OrderIff(ls, c.start, c.end);
    SumLensSpan(ls, c.start.line, c.end.line + 1);
    LineStartNext(ls, c.end.line);
    SumLens(ls, c.start.line, c.end.line + 1) - c.start.col - (|ls[c.end.line]| - c.end.col)
  }

  // ---------------------------------------------------------------------
  // Reading

  /** How far the line walk of Str and Tokenize has got before line `i`. */
  function Reach(ls: seq<string>, c: Chunk, i: nat): nat
    requires Valid(ls, c) && c.start.line <= i <= c.end.line + 1
  {
    if i == c.start.line then Lo(ls, c)
    else if i <= c.end.line then LineStart(ls, i)
    else Hi(ls, c)
  }

  /** The part of line `i` a multi-line chunk covers. */
  function Piece(ls: seq<string>, c: Chunk, i: nat): string
    requires Valid(ls, c) && c.start.line <= i <= c.end.line
  {
    if i == c.start.line then ls[i][c.start.col..]
    else if i == c.end.line then ls[i][..c.end.col]
    else ls[i]
  }

  /** One step of the line walk: the covered text so far, followed by the
    * covered part of line `i`, is the covered text up to the next line. */
  lemma StrStep(ls: seq<string>, c: Chunk, i: nat)
    requires Valid(ls, c) && c.start.line < c.end.line
    requires c.start.line <= i <= c.end.line
    ensures Lo(ls, c) <= Reach(ls, c, i) <= Reach(ls, c, i + 1) <= Total(ls)
    ensures Flat(ls)[Lo(ls, c)..Reach(ls, c, i)] + Piece(ls, c, i)
            == Flat(ls)[Lo(ls, c)..Reach(ls, c, i + 1)]
  {
    PieceAt(ls, c, i);
    SliceJoin(Flat(ls), Lo(ls, c), Reach(ls, c, i), Reach(ls, c, i + 1));
  }

  /** The covered part of line `i` is the flat text between the walk's reach before and after it. */
  lemma PieceAt(ls: seq<string>, c: Chunk, i: nat)
    requires Valid(ls, c) && c.start.line < c.end.line
    requires c.start.line <= i <= c.end.line
    ensures Lo(ls, c) <= Reach(ls, c, i) <= Reach(ls, c, i + 1) <= Total(ls)
    ensures Piece(ls, c, i) == Flat(ls)[Reach(ls, c, i)..Reach(ls, c, i + 1)]
  {
    if i == c.start.line {
      PieceAtFirst(ls, c, i);
    } else if i == c.end.line {
      PieceAtLast(ls, c, i);
    } else {
      PieceAtMiddle(ls, c, i);
    }
  }

  lemma PieceAtFirst(ls: seq<string>, c: Chunk, i: nat)
    requires Valid(ls, c) && c.start.line < c.end.line && i == c.start.line
    ensures Lo(ls, c) == Reach(ls, c, i) <= Reach(ls, c, i + 1) == LineStart(ls, i + 1) <= Total(ls)
    ensures Piece(ls, c, i) == Flat(ls)[Reach(ls, c, i)..Reach(ls, c, i + 1)]
  {
    LineStartNext(ls, i);
    LinePiece(ls, i, c.start.col, |ls[i]|);
  }

  lemma PieceAtLast(ls: seq<string>, c: Chunk, i: nat)
    requires Valid(ls, c) && c.start.line < c.end.line && i == c.end.line
    ensures Lo(ls, c) <= Reach(ls, c, i) == LineStart(ls, i) <= Reach(ls, c, i + 1) == Hi(ls, c) <= Total(ls)
    ensures Piece(ls, c, i) == Flat(ls)[Reach(ls, c, i)..Reach(ls, c, i + 1)]
  {
    LineStartNext(ls, c.start.line);
    LineStartMono(ls, c.start.line + 1, i);
    LinePiece(ls, i, 0, c.end.col);
  }

  lemma PieceAtMiddle(ls: seq<string>, c: Chunk, i: nat)
    requires Valid(ls, c) && c.start.line < i < c.end.line
    ensures Lo(ls, c) <= Reach(ls, c, i) == LineStart(ls, i) <= Reach(ls, c, i + 1) == LineStart(ls, i + 1) <= Total(ls)
    ensures Piece(ls, c, i) == Flat(ls)[Reach(ls, c, i)..Reach(ls, c, i + 1)]
  {
    LineStartNext(ls, c.start.line);
    LineStartNext(ls, i);
    LineStartMono(ls, c.start.line + 1, i);
    LinePiece(ls, i, 0, |ls[i]|);
    assert ls[i][0..|ls[i]|] == ls[i];
    LineStartMono(ls, i + 1, c.end.line);
  }

  /** Chunk.__str__ (and the characters __iter__ yields): the first line
    * from the start column, the middle lines whole, the last line up to
    * the end column. */
  method Str(ls: seq<string>, c: Chunk) returns (s: string)
    requires Valid(ls, c)
    ensures s == Content(ls, c)
  {
    var sl, el := c.start.line, c.end.line;
    if sl == el {
      LinePiece(ls, sl, c.start.col, c.end.col);
      s := ls[sl][c.start.col..c.end.col];
      return;
    }
    OrderIff(ls, c.start, c.end);
    s := "";
    for i := sl to el + 1
      invariant Lo(ls, c) <= Reach(ls, c, i) <= Total(ls)
      invariant s == Flat(ls)[Lo(ls, c)..Reach(ls, c, i)]
    {
      var piece := ls[i];
      if i == sl {
        piece := piece[c.start.col..];
      } else if i == el {
        piece := piece[..c.end.col];
      }
      StrStep(ls, c, i);
      s := s + piece;
    }
  }

  /** Chunk._char_at_pos: IndexError unless the position lies in the chunk
    * (line range, then column bounds on the first and last line). */
  function CharAtPos(ls: seq<string>, c: Chunk, p: Pos): (r: Result<char>)
    requires Valid(ls, c) && Normal(ls, p)
    ensures r.Ok? <==> Lo(ls, c) <= Offset(ls, p) < Hi(ls, c)
    ensures r.Ok? ==> Offset(ls, p) < |Flat(ls)| && r.value == Flat(ls)[Offset(ls, p)]
  {
    OrderIff(ls, c.start, p);
    OrderIff(ls, p, c.end);
    if !(c.start.line <= p.line <= c.end.line) then Err(IndexError)
    else if p.line == c.start.line && p.col < c.start.col then Err(IndexError)
    else if p.line == c.end.line && p.col >= c.end.col then Err(IndexError)
    else
      LineChar(ls, p.line, p.col);
      Ok(ls[p.line][p.col])
  }

  /** Characters of the chunk on the lines before line `k`. */
  function Before(ls: seq<string>, c: Chunk, k: nat): int
    requires Valid(ls, c) && c.start.line <= k <= c.end.line
  {
    if k == c.start.line then 0 else LineStart(ls, k) - Lo(ls, c)
  }

  /** Characters of line `k` from the chunk's start onwards. */
  function Usable(ls: seq<string>, c: Chunk, k: nat): int
    requires Valid(ls, c) && c.start.line <= k <= c.end.line
  {
    if k == c.start.line then |ls[k]| - c.start.col else |ls[k]|
  }

  /** One step of the line search in CharAtIndex: either index `j` falls in
    * line `k`, at the column CharAtIndex computes, or the search moves on. */
  lemma CharStep(ls: seq<string>, c: Chunk, k: nat, j: int)
    requires Valid(ls, c) && c.start.line <= k <= c.end.line
    requires 0 <= Before(ls, c, k) <= j < Len(ls, c)
    ensures var col := j - Before(ls, c, k) + (if k == c.start.line then c.start.col else 0);
            Before(ls, c, k) + Usable(ls, c, k) > j ==>
              0 <= col < |ls[k]| && ls[k][col] == Content(ls, c)[j]
    ensures Before(ls, c, k) + Usable(ls, c, k) <= j ==>
              k < c.end.line && Before(ls, c, k + 1) == Before(ls, c, k) + Usable(ls, c, k)
  {
    var sl, el := c.start.line, c.end.line;
    OrderIff(ls, c.start, c.end);
    LineStartNext(ls, k);
    LineStartNext(ls, sl);
    if k > sl {
      LineStartMono(ls, sl + 1, k);
    }
    var col := j - Before(ls, c, k) + (if k == sl then c.start.col else 0);
    if Before(ls, c, k) + Usable(ls, c, k) > j {
      LineChar(ls, k, col);
    }
  }

  /** Chunk._char_at_index: a negative index counts from the end; outside
    * the chunk is IndexError; otherwise the line holding the index is found
    * by walking the chunk's lines. */
  method CharAtIndex(ls: seq<string>, c: Chunk, i: int) returns (r: Result<char>)
    requires Valid(ls, c)
    ensures var n := Len(ls, c);
            var j := if i < 0 then i + n else i;
            r == if 0 <= j < n then Ok(Content(ls, c)[j]) else Err(IndexError)
  {
    var n := Len(ls, c);
    var j := i;
    if j < 0 {
      j := j + n;
    }
    if !(0 <= j < n) {
      return Err(IndexError);
    }
    var sl := c.start.line;
    OrderIff(ls, c.start, c.end);
    var searchI := 0;
    var k := sl;
    while true
      invariant sl <= k <= c.end.line
      invariant searchI == Before(ls, c, k) && 0 <= searchI <= j
      decreases c.end.line - k
    {
      var usable := |ls[k]|;
      if k == sl {
        usable := usable - c.start.col;
      }
      CharStep(ls, c, k, j);
      if searchI + usable > j {
        var col := j - searchI;
        if k == sl {
          col := col + c.start.col;
        }
        return Ok(ls[k][col]);
      }
      searchI := searchI + usable;
      k := k + 1;
    }
  }

  // ---------------------------------------------------------------------
  // Slicing

  /** Where one bound of a slice lands, as a flat offset: ints are relative
    * to the chunk's start (negative ones to its end) and go through
    * SourcePos `+`, which fails outside the file, not outside the chunk. */
  function BoundOffset(ls: seq<string>, c: Chunk, b: Bound, dflt: nat): (r: Result<nat>)
    requires Valid(ls, c) && dflt <= Total(ls)
    requires b.At? ==> Normal(ls, b.p)
    ensures r.Ok? ==> r.value <= Total(ls)
  {
    match b
    case Default => Ok(dflt)
    case At(p) =>
      OffsetPosAt(ls, p);
      Ok(Offset(ls, p))
    case Index(i) =>
      var m := Lo(ls, c) + (if i < 0 then i + Len(ls, c) else i);
      if 0 <= m <= Total(ls) then Ok(m) else Err(ValueError)
  }

  /** One bound of Chunk._slice turned into a position: an int goes
    * through SourcePos `+` from the chunk's start. */
  method Resolve(ls: seq<string>, c: Chunk, b: Bound, dflt: Pos) returns (r: Result<Pos>)
    requires Valid(ls, c) && Normal(ls, dflt) && Offset(ls, dflt) <= Total(ls)
    requires b.At? ==> Normal(ls, b.p)
    ensures var o := BoundOffset(ls, c, b, Offset(ls, dflt));
            r.Ok? == o.Ok? && (r.Ok? ==> Normal(ls, r.value) && Offset(ls, r.value) == o.value)
  {
    match b
    case Default =>
      r := Ok(dflt);
    case At(p) =>
      r := Ok(p);
    case Index(i) =>
      var m := i;
      if m < 0 {
        m := m + Len(ls, c);
      }
      r := Add(ls, c.start, m);
      if r.Ok? {
        PosAtSpec(ls, Lo(ls, c) + m);
      }
  }

  /** Chunk._slice: `start or self.start`, `stop` or self.end, ints shifted
    * from the chunk's start, then a new Chunk (ValueError if reversed). */
  method Slice(ls: seq<string>, c: Chunk, start: Bound, stop: Bound) returns (r: Result<Chunk>)
    requires Valid(ls, c)
    requires start.At? ==> Normal(ls, start.p)
    requires stop.At? ==> Normal(ls, stop.p)
    ensures var a := BoundOffset(ls, c, start, Lo(ls, c));
            var b := BoundOffset(ls, c, stop, Hi(ls, c));
            r == if a.Ok? && b.Ok? && a.value <= b.value
                 then Ok(Span(ls, a.value, b.value)) else Err(ValueError)
  {
    var s: Result<Pos>;
    if start == Index(0) {
      s := Ok(c.start);
    } else {
      s := Resolve(ls, c, start, c.start);
    }
    if s.Err? {
      return Err(ValueError);
    }
    var e := Resolve(ls, c, stop, c.end);
    if e.Err? {
      return Err(ValueError);
    }
    OffsetPosAt(ls, s.value);
    OffsetPosAt(ls, e.value);
    r := NewChunk(ls, s.value, e.value);
  }

  /** Chunk.pos: a column keyword 'end' means the line's length (the line
    * index taken as Python indexes a list); any other keyword is
    * ValueError; the result goes through SourcePos construction. */
  function ChunkPos(ls: seq<string>, line: int, col: ColArg): (r: Result<Pos>)
    requires WellFormed(ls)
    ensures col == Keyword("end") && -|ls| <= line < |ls| ==>
      var li := if line < 0 then line + |ls| else line;
      r.Ok? && Normal(ls, r.value) && Offset(ls, r.value) == LineStart(ls, li + 1)
    ensures col.Keyword? && col.w != "end" ==> r == Err(ValueError)
  {
    match col
    case Keyword(w) =>
      if w != "end" then Err(ValueError)
      else if !(-|ls| <= line < |ls|) then Err(IndexError)
      else
        var li := if line < 0 then line + |ls| else line;
        MakePosSpec(ls, line, |ls[li]|);
        LineStartNext(ls, li);
        MakePos(ls, line, |ls[li]|)
    case Col(ci) => MakePos(ls, line, ci)
  }

  // ---------------------------------------------------------------------
  // Tokens

  /** The text before a line that is not the first ends in '\n'. */
  lemma PrevLineEnds(ls: seq<string>, i: nat)
    requires Shaped(ls) && 0 < i < |ls|
    ensures 0 < LineStart(ls, i) <= Total(ls) && Flat(ls)[LineStart(ls, i) - 1] == '\n'
  {
    var k := i - 1;
    assert ls[k][|ls[k]| - 1] == '\n';
    LineStartNext(ls, k);
    LineChar(ls, k, |ls[k]| - 1);
    assert LineStart(ls, k) + (|ls[k]| - 1) == LineStart(ls, i) - 1;
  }

  /** StrStep for tokens: a token never spans the '\n' ending a line. */
  lemma TokStep(ls: seq<string>, c: Chunk, i: nat)
    requires Shaped(ls) && Valid(ls, c) && c.start.line < c.end.line
    requires c.start.line <= i <= c.end.line
    ensures Lo(ls, c) <= Reach(ls, c, i) <= Reach(ls, c, i + 1) <= Total(ls)
    ensures Tokens(Flat(ls)[Lo(ls, c)..Reach(ls, c, i)]) + Tokens(Piece(ls, c, i))
            == Tokens(Flat(ls)[Lo(ls, c)..Reach(ls, c, i + 1)])
  {
    StrStep(ls, c, i);
    var t := Flat(ls);
    var a := t[Lo(ls, c)..Reach(ls, c, i)];
    if i == c.start.line {
      assert a == "";
      assert a + Piece(ls, c, i) == Piece(ls, c, i);
    } else {
      PrevLineEnds(ls, i);
      if |a| > 0 {
        assert a[|a| - 1] == t[LineStart(ls, i) - 1];
      }
      RunsAppend(a, Piece(ls, c, i), IsWordChar);
    }
  }

  /** Chunk.tokenize: on one line, the tokens of the chunk's string;
    * otherwise the tokens of each line's covered part, concatenated.  The
    * two agree because every line but the last ends in '\n', which no
    * token contains. */
  method Tokenize(ls: seq<string>, c: Chunk) returns (toks: seq<string>)
    requires Shaped(ls) && Valid(ls, c)
    ensures toks == Tokens(Content(ls, c))
  {
    var sl, el := c.start.line, c.end.line;
    if sl == el {
      var s := Str(ls, c);
      return Tokens(s);
    }
    OrderIff(ls, c.start, c.end);
    toks := [];
    for i := sl to el + 1
      invariant Lo(ls, c) <= Reach(ls, c, i) <= Total(ls)
      invariant toks == Tokens(Flat(ls)[Lo(ls, c)..Reach(ls, c, i)])
    {
      var piece := ls[i];
      if i == sl {
        piece := piece[c.start.col..];
      } else if i == el {
        piece := piece[..c.end.col];
      }
      TokStep(ls, c, i);
      toks := toks + Tokens(piece);
    }
  }

  // ---------------------------------------------------------------------
  // Strip

  /** Number of trailing characters of `s` satisfying `p`. */
  function TrailLength(s: string, p: char -> bool): (n: nat)
    ensures n <= |s|
    ensures forall i :: |s| - n <= i < |s| ==> p(s[i])
    ensures n < |s| ==> !p(s[|s| - n - 1])
  {
    if |s| == 0 || !p(s[|s| - 1]) then 0 else TrailLength(s[..|s| - 1], p) + 1
  }

  /** The chunk without its leading and trailing ASCII whitespace, or
    * ValueError when there is nothing else. */
  function StrippedChunk(ls: seq<string>, c: Chunk): (r: Result<Chunk>)
    requires Valid(ls, c)
  {
    var s := Content(ls, c);
    var lead := RunLength(s, IsAsciiSpace);
    if lead == |s| then Err(ValueError)
    else
      assert !IsAsciiSpace(s[lead]);
      Ok(Span(ls, Lo(ls, c) + lead, Hi(ls, c) - TrailLength(s, IsAsciiSpace)))
  }

  /** strip fails with ValueError exactly when the chunk is all ASCII
    * whitespace. */
  lemma StrippedChunkErr(ls: seq<string>, c: Chunk)
    requires Valid(ls, c)
    ensures StrippedChunk(ls, c).Err? <==>
      forall k :: Lo(ls, c) <= k < Hi(ls, c) ==> IsAsciiSpace(Flat(ls)[k])
  {
    var t, s := Flat(ls), Content(ls, c);
    var lead := RunLength(s, IsAsciiSpace);
    if lead == |s| {
      forall k | Lo(ls, c) <= k < Hi(ls, c)
        ensures IsAsciiSpace(t[k])
      {
        assert t[k] == s[k - Lo(ls, c)];
      }
    } else {
      assert t[Lo(ls, c) + lead] == s[lead];
    }
  }

  /** Otherwise the stripped chunk lies inside the chunk, everything of the
    * chunk outside it is ASCII whitespace, and it starts and ends with a
    * character that is not. */
  lemma StrippedChunkInside(ls: seq<string>, c: Chunk)
    requires Valid(ls, c) && StrippedChunk(ls, c).Ok?
    ensures var d := StrippedChunk(ls, c).value;
      Valid(ls, d) && Lo(ls, c) <= Lo(ls, d) < Hi(ls, d) <= Hi(ls, c)
    ensures var d := StrippedChunk(ls, c).value;
      (forall k :: Lo(ls, c) <= k < Lo(ls, d) ==> IsAsciiSpace(Flat(ls)[k])) &&
      (forall k :: Hi(ls, d) <= k < Hi(ls, c) ==> IsAsciiSpace(Flat(ls)[k]))
    ensures var d := StrippedChunk(ls, c).value;
      !IsAsciiSpace(Flat(ls)[Lo(ls, d)]) && !IsAsciiSpace(Flat(ls)[Hi(ls, d) - 1])
  {
    var s := Content(ls, c);
    var lead, trail := RunLength(s, IsAsciiSpace), TrailLength(s, IsAsciiSpace);
    SpaceMargins(Flat(ls), Lo(ls, c), Hi(ls, c), lead, trail);
  }

  /** Stripping a chunk that starts with '{' keeps its start. */
  lemma StrippedFromBrace(ls: seq<string>, c: Chunk)
    requires Valid(ls, c) && StrippedChunk(ls, c).Ok? && Lo(ls, c) < Hi(ls, c) && Flat(ls)[Lo(ls, c)] == '{'
    ensures Flat(ls)[Lo(ls, StrippedChunk(ls, c).value)] == '{'
  {
    StrippedChunkInside(ls, c);
    assert !IsAsciiSpace(Flat(ls)[Lo(ls, c)]);
  }

  /** The ASCII whitespace margins of t[lo..hi], given as the lengths of its leading and trailing runs. */
  lemma SpaceMargins(t: string, lo: nat, hi: nat, lead: nat, trail: nat)
    requires lo <= hi <= |t|
    requires lead == RunLength(t[lo..hi], IsAsciiSpace) < hi - lo
    requires trail == TrailLength(t[lo..hi], IsAsciiSpace)
    ensures lo + lead < hi - trail
    ensures forall k :: lo <= k < lo + lead ==> IsAsciiSpace(t[k])
    ensures forall k :: hi - trail <= k < hi ==> IsAsciiSpace(t[k])
    ensures !IsAsciiSpace(t[lo + lead]) && !IsAsciiSpace(t[hi - trail - 1])
  {
    var s := t[lo..hi];
    assert !IsAsciiSpace(s[lead]);
    assert t[lo + lead] == s[lead];
    assert t[lo + (|s| - trail - 1)] == s[|s| - trail - 1];
    forall k | lo <= k < hi
      ensures t[k] == s[k - lo]
    {
    }
  }

  /** A chunk is the span of its own offsets. */
  lemma SpanOwn(ls: seq<string>, d: Chunk)
    requires Valid(ls, d)
    ensures Span(ls, Lo(ls, d), Hi(ls, d)) == d
  {
    OffsetPosAt(ls, d.start);
    OffsetPosAt(ls, d.end);
  }

  /** A chunk that starts and ends with non-space strips to itself. */
  lemma StrippedChunkClean(ls: seq<string>, d: Chunk)
    requires Valid(ls, d) && Lo(ls, d) < Hi(ls, d)
    requires !IsAsciiSpace(Flat(ls)[Lo(ls, d)]) && !IsAsciiSpace(Flat(ls)[Hi(ls, d) - 1])
    ensures StrippedChunk(ls, d) == Ok(d)
  {
    var t := Content(ls, d);
    assert t[0] == Flat(ls)[Lo(ls, d)];
    assert t[|t| - 1] == Flat(ls)[Hi(ls, d) - 1];
    assert RunLength(t, IsAsciiSpace) == 0;
    assert TrailLength(t, IsAsciiSpace) == 0;
    SpanOwn(ls, d);
  }

  /** Stripping a stripped chunk changes nothing. */
  lemma StrippedChunkIdempotent(ls: seq<string>, c: Chunk)
    requires Valid(ls, c) && StrippedChunk(ls, c).Ok?
    ensures StrippedChunk(ls, StrippedChunk(ls, c).value) == StrippedChunk(ls, c)
  {
    StrippedChunkInside(ls, c);
    StrippedChunkClean(ls, StrippedChunk(ls, c).value);
  }

  /** Chunk.strip: skip leading ASCII whitespace (ValueError when nothing
    * else is left), walk back over trailing whitespace, and slice. */
  method Strip(ls: seq<string>, c: Chunk) returns (r: Result<Chunk>)
    requires Valid(ls, c)
    ensures r == StrippedChunk(ls, c)
  {
    var s := Str(ls, c);
    var start := SkipSpace(s);
    if start == |s| {
      return Err(ValueError);
    }
    r := StripFrom(ls, c, start);
  }

  /** The rest of Chunk.strip, once the leading whitespace is skipped. */
  method StripFrom(ls: seq<string>, c: Chunk, start: nat) returns (r: Result<Chunk>)
    requires Valid(ls, c) && start == RunLength(Content(ls, c), IsAsciiSpace) < |Content(ls, c)|
    ensures r == StrippedChunk(ls, c)
  {
    var end := BackOverSpace(ls, c, start);
    StrippedChunkAt(ls, c, start, end + 1);
    r := Slice(ls, c, Index(start), Index(end + 1));
    IndexBounds(ls, c, start, end + 1, r);
  }

  /** The stripped chunk spans from `a` to `b` characters into the chunk,
    * the ends of its leading and trailing whitespace. */
  lemma StrippedChunkAt(ls: seq<string>, c: Chunk, a: nat, b: nat)
    requires Valid(ls, c) && a == RunLength(Content(ls, c), IsAsciiSpace) < |Content(ls, c)|
    requires b == Len(ls, c) - TrailLength(Content(ls, c), IsAsciiSpace)
    ensures StrippedChunk(ls, c) == Ok(Span(ls, Lo(ls, c) + a, Lo(ls, c) + b))
  {
  }

  /** The forward scan of Chunk.strip: index of the first character that
    * is not ASCII whitespace, or the length when there is none. */
  method SkipSpace(s: string) returns (start: nat)
    ensures start == RunLength(s, IsAsciiSpace)
  {
    ghost var lead := RunLength(s, IsAsciiSpace);
    start := 0;
    while start < |s| && IsAsciiSpace(s[start])
      invariant start <= lead
    {
      start := start + 1;
    }
  }

  /** The backward scan of Chunk.strip, reading the chunk by int index from
    * its last character: index of the last character that is not ASCII
    * whitespace. */
  method BackOverSpace(ls: seq<string>, c: Chunk, start: nat) returns (end: nat)
    requires Valid(ls, c) && start < Len(ls, c)
    requires !IsAsciiSpace(Content(ls, c)[start])
    ensures start <= end < Len(ls, c)
    ensures end == Len(ls, c) - 1 - TrailLength(Content(ls, c), IsAsciiSpace)
  {
    ghost var s := Content(ls, c);
    end := Len(ls, c) - 1;
    var ch := CharAtIndex(ls, c, end);
    while IsAsciiSpace(ch.value)
      invariant start <= end < |s|
      invariant ch == Ok(s[end])
      invariant |s| - 1 - end <= TrailLength(s, IsAsciiSpace)
      decreases end
    {
      TrailMore(s, end);
      end := end - 1;
      ch := CharAtIndex(ls, c, end);
    }
    TrailStop(s, end);
  }

  /** Slicing by two int indices inside the chunk gives the span between them. */
  lemma IndexBounds(ls: seq<string>, c: Chunk, a: nat, b: nat, r: Result<Chunk>)
    requires Valid(ls, c) && a <= b <= Len(ls, c)
    requires var x := BoundOffset(ls, c, Index(a), Lo(ls, c));
             var y := BoundOffset(ls, c, Index(b), Hi(ls, c));
             r == if x.Ok? && y.Ok? && x.value <= y.value then Ok(Span(ls, x.value, y.value)) else Err(ValueError)
    ensures Lo(ls, c) + b <= Total(ls)
    ensures r == Ok(Span(ls, Lo(ls, c) + a, Lo(ls, c) + b))
  {
    assert BoundOffset(ls, c, Index(a), Lo(ls, c)) == Ok(Lo(ls, c) + a);
    assert BoundOffset(ls, c, Index(b), Hi(ls, c)) == Ok(Lo(ls, c) + b);
  }

  lemma TrailMore(s: string, end: nat)
    requires end < |s| && IsAsciiSpace(s[end])
    requires |s| - 1 - end <= TrailLength(s, IsAsciiSpace)
    ensures |s| - end <= TrailLength(s, IsAsciiSpace)
  {
  }

  lemma TrailStop(s: string, end: nat)
    requires end < |s| && !IsAsciiSpace(s[end])
    requires |s| - 1 - end <= TrailLength(s, IsAsciiSpace)
    ensures TrailLength(s, IsAsciiSpace) == |s| - 1 - end
  {
  }

  // ---------------------------------------------------------------------
  // Line strings and the content hash

  predicate NotNewline(ch: char) { ch != '\n' }

  /** The lines of `s` that end in '\n', each with its '\n': readlines of
    * the text up to its last '\n'.  Text after the last '\n' is not among
    * them. */
  function CompleteLines(s: string): seq<string> {
    ReadLines(s[..|s| - TrailLength(s, NotNewline)])
  }

  /** A line as iter_hash sees it: without its final '\n'. */
  function Chomp(l: string): string {
    if |l| > 0 && l[|l| - 1] == '\n' then l[..|l| - 1] else l
  }

  function Chomped(lines: seq<string>): (r: seq<string>)
    ensures |r| == |lines| && forall k :: 0 <= k < |r| ==> r[k] == Chomp(lines[k])
  {
    if |lines| == 0 then [] else [Chomp(lines[0])] + Chomped(lines[1..])
  }

  /** Chunk.content_hash as written: iter_hash of the chomped line_strings,
    * which leave out the text after the chunk's last '\n'. */
  function ContentHashAsWritten(md5: string -> Digest, ls: seq<string>, c: Chunk): int
    requires Valid(ls, c)
  {
    IterHash(md5, Chomped(CompleteLines(Content(ls, c))))
  }

  /** Chunk.content_hash as intended: iter_hash of every line of the chunk,
    * chomped. */
  function ContentHash(md5: string -> Digest, ls: seq<string>, c: Chunk): int
    requires Valid(ls, c)
  {
    IterHash(md5, Chomped(ReadLines(Content(ls, c))))
  }

  /** The content hash the construct graph uses: as written, or as
    * intended when corrected. */
  function ChunkHash(md5: string -> Digest, ls: seq<string>, c: Chunk, corrected: bool): int
    requires Valid(ls, c)
  {
    if corrected then ContentHash(md5, ls, c) else ContentHashAsWritten(md5, ls, c)
  }

  /** As written, a chunk on one line (such as a one-line declaration)
    * hashes to join_hashes([]) == 1, whatever its text. */
  lemma OneLineUnhashed(md5: string -> Digest, ls: seq<string>, c: Chunk)
    requires Valid(ls, c)
    ensures (forall k :: 0 <= k < |Content(ls, c)| ==> Content(ls, c)[k] != '\n') ==>
      ContentHashAsWritten(md5, ls, c) == 1
  {
    var s := Content(ls, c);
    if forall k :: 0 <= k < |s| ==> s[k] != '\n' {
      LastNewline("", s);
      assert "" + s == s;
      assert s[..|s| - |s|] == "";
      assert CompleteLines(s) == [];
      assert Chomped([]) == [];
    }
  }

  /** As intended, a non-empty chunk on one line hashes to join_hashes of
    * the md5 of its text alone. */
  lemma OneLineHashed(md5: string -> Digest, ls: seq<string>, c: Chunk)
    requires Valid(ls, c)
    ensures var s := Content(ls, c);
      |s| > 0 && (forall k :: 0 <= k < |s| ==> s[k] != '\n') ==>
      ContentHash(md5, ls, c) == JoinedHash([md5(s) as int])
  {
    var s := Content(ls, c);
    if |s| > 0 && forall k :: 0 <= k < |s| ==> s[k] != '\n' {
      ReadLinesOne(s);
      assert Chomp(s) == s;
      assert Chomped([s]) == [s];
      assert Digests(md5, [s]) == [md5(s) as int];
    }
  }

  /** Chunk.line_strings: the chunk's characters, cut into lines. */
  method LineStrings(ls: seq<string>, c: Chunk) returns (lines: seq<string>)
    requires Valid(ls, c)
    ensures lines == CompleteLines(Content(ls, c))
  {
    var s := Str(ls, c);
    lines := CutLines(s);
  }

  /** The loop of Chunk.line_strings: accumulate characters into a line and
    * emit it at every '\n'. */
  method CutLines(s: string) returns (lines: seq<string>)
    ensures lines == CompleteLines(s)
  {
    var line := "";
    lines := [];
    ghost var start := 0;
    for i := 0 to |s|
      invariant CutState(s, i, start, line, lines)
    {
      ghost var start0, line0, lines0 := start, line, lines;
      line := line + [s[i]];
      if s[i] == '\n' {
        lines := lines + [line];
        line := "";
        start := i + 1;
      }
      CutStep(s, i, start0, line0, lines0, start, line, lines);
    }
    CutDone(s, start, line, lines);
  }

  /** The state of CutLines' loop before `s[i]`: `line` is the text since
    * the last '\n' (which starts at `start`), and `lines` the lines before it. */
  ghost predicate CutState(s: string, i: nat, start: nat, line: string, lines: seq<string>) {
    start <= i <= |s| && line == s[start..i] &&
    (forall j :: start <= j < i ==> s[j] != '\n') &&
    (start == 0 || s[start - 1] == '\n') &&
    lines == ReadLines(s[..start])
  }

  /** One character of CutLines' loop. */
  lemma CutStep(s: string, i: nat, start0: nat, line0: string, lines0: seq<string>,
                start: nat, line: string, lines: seq<string>)
    requires i < |s| && CutState(s, i, start0, line0, lines0)
    requires s[i] == '\n' ==> lines == lines0 + [line0 + [s[i]]] && line == "" && start == i + 1
    requires s[i] != '\n' ==> lines == lines0 && line == line0 + [s[i]] && start == start0
    ensures CutState(s, i + 1, start, line, lines)
  {
    if s[i] == '\n' {
      CutAtNewline(s, i, start0, line0, lines0);
    } else {
      assert s[start0..i + 1] == line0 + [s[i]];
    }
  }

  /** A '\n' ends the current line, which joins the lines emitted. */
  lemma CutAtNewline(s: string, i: nat, start: nat, line: string, lines: seq<string>)
    requires i < |s| && s[i] == '\n' && CutState(s, i, start, line, lines)
    ensures CutState(s, i + 1, i + 1, "", lines + [line + [s[i]]])
  {
    var w := line + [s[i]];
    assert s[start..i + 1] == w;
    assert s[..i + 1] == s[..start] + w;
    ReadLinesSnoc(s[..start], line, s[i]);
  }

  /** At the end of CutLines' loop, the lines emitted are the complete lines of `s`. */
  lemma CutDone(s: string, start: nat, line: string, lines: seq<string>)
    requires CutState(s, |s|, start, line, lines)
    ensures lines == CompleteLines(s)
  {
    assert forall j :: 0 <= j < |line| ==> line[j] == s[start + j];
    LastNewline(s[..start], line);
    assert s == s[..start] + line;
  }

  /** The text up to and including its last '\n' is what lies before the
    * trailing newline-free part. */
  lemma LastNewline(q: string, w: string)
    requires |q| == 0 || q[|q| - 1] == '\n'
    requires forall j :: 0 <= j < |w| ==> w[j] != '\n'
    ensures TrailLength(q + w, NotNewline) == |w|
    ensures (q + w)[..|q|] == q
  {
    var s := q + w;
    var n := TrailLength(s, NotNewline);
  }

  /** Lines of a text that ends at a line break, followed by a partial line. */
  lemma ReadLinesSnoc(q: string, w: string, ch: char)
    requires |q| == 0 || q[|q| - 1] == '\n'
    requires forall j :: 0 <= j < |w| ==> w[j] != '\n'
    ensures ch == '\n' ==> ReadLines(q + (w + [ch])) == ReadLines(q) + [w + [ch]]
  {
    if ch == '\n' {
      ReadLinesAppend(q, w + [ch]);
      ReadLinesOne(w + [ch]);
    }
  }

  /** A non-empty text whose only '\n' can be its last character is one line. */
  lemma ReadLinesOne(w: string)
    requires |w| > 0 && forall j :: 0 <= j < |w| - 1 ==> w[j] != '\n'
    ensures ReadLines(w) == [w]
  {
    var n := LineEnd(w);
    assert n == |w|;
    assert w[..n] == w;
    assert w[n..] == [];
  }

  /** readlines of a text that ends at a line break, followed by more text,
    * is the lines of each. */
  lemma {:induction false} ReadLinesAppend(q: string, w: string)
    requires |q| == 0 || q[|q| - 1] == '\n'
    ensures ReadLines(q + w) == ReadLines(q) + ReadLines(w)
    decreases |q|
  {
    if |q| > 0 {
      var n := LineEnd(q);
      LineEndAppend(q, w);
      assert (q + w)[..n] == q[..n];
      assert (q + w)[n..] == q[n..] + w;
      ReadLinesAppend(q[n..], w);
    } else {
      assert q + w == w;
    }
  }

  lemma {:induction false} LineEndAppend(q: string, w: string)
    requires |q| > 0 && q[|q| - 1] == '\n'
    ensures LineEnd(q + w) == LineEnd(q)
    decreases |q|
  {
    if q[0] != '\n' {
      assert (q + w)[1..] == q[1..] + w;
      LineEndAppend(q[1..], w);
    }
  }

  /** What line_strings misses: text after the last '\n' never reaches the
    * hash, so two texts that differ only there hash alike. */
  lemma {:induction false} CompleteLinesIgnoreTail(s: string, x: string)
    requires forall j :: 0 <= j < |x| ==> x[j] != '\n'
    ensures CompleteLines(s + x) == CompleteLines(s)
  {
    var q, w := TailSplit(s);
    var wx := w + x;
    assert forall j :: 0 <= j < |wx| ==> wx[j] != '\n' by {
      assert forall j :: 0 <= j < |wx| ==> wx[j] == if j < |w| then w[j] else x[j - |w|];
    }
    CompleteLinesSplit(q, w);
    CompleteLinesSplit(q, wx);
    assert s + x == q + wx;
  }

  /** A text is the lines up to its last '\n', then a partial line. */
  lemma TailSplit(s: string) returns (q: string, w: string)
    ensures s == q + w && (|q| == 0 || q[|q| - 1] == '\n')
    ensures forall j :: 0 <= j < |w| ==> w[j] != '\n'
  {
    var n := TrailLength(s, NotNewline);
    q, w := s[..|s| - n], s[|s| - n..];
    assert s == q + w;
    assert forall j :: 0 <= j < |w| ==> w[j] == s[|s| - n + j];
  }

  /** The complete lines of a text that ends in a partial line are those before it. */
  lemma CompleteLinesSplit(q: string, w: string)
    requires |q| == 0 || q[|q| - 1] == '\n'
    requires forall j :: 0 <= j < |w| ==> w[j] != '\n'
    ensures CompleteLines(q + w) == ReadLines(q)
  {
    LastNewline(q, w);
  }

  /** content_hash as written hashes only the lines before the last '\n'
    * of a chunk: chunks whose texts differ only after it hash alike. */
  lemma ContentHashAsWrittenIgnoresTail(md5: string -> Digest, ls1: seq<string>, c1: Chunk,
                                        ls2: seq<string>, c2: Chunk, p: string, x: string, y: string)
    requires Valid(ls1, c1) && Valid(ls2, c2)
    requires Content(ls1, c1) == p + x && Content(ls2, c2) == p + y
    requires forall j :: 0 <= j < |x| ==> x[j] != '\n'
    requires forall j :: 0 <= j < |y| ==> y[j] != '\n'
    ensures ContentHashAsWritten(md5, ls1, c1) == ContentHashAsWritten(md5, ls2, c2)
  {
    CompleteLinesIgnoreTail(p, x);
    CompleteLinesIgnoreTail(p, y);
  }

  /** A concrete instance: "a\nx" and "a\ny" differ, yet content_hash as
    * written hashes the same lines for both (only "a\n"). */
  lemma LastLineUnhashed()
    ensures "a\nx" != "a\ny"
    ensures CompleteLines("a\nx") == CompleteLines("a\ny")
  {
    assert "a\nx"[2] != "a\ny"[2];
    assert "a\nx" == "a\n" + "x";
    assert "a\ny" == "a\n" + "y";
    CompleteLinesIgnoreTail("a\n", "x");
    CompleteLinesIgnoreTail("a\n", "y");
  }

  /** What the intended hash sees: its chomped lines, joined back with
    * '\n', give the text less a final '\n'. */
  lemma ChompedLinesJoin(s: string)
    ensures Join(Chomped(ReadLines(s)), "\n") == Chomp(s)
  {
    var ls := ReadLines(s);
    ReadLinesConcat(s);
    ReadLinesShape(s);
    forall k | 0 <= k < |ls| - 1
      ensures ls[k][|ls[k]| - 1] == '\n'
    {
      assert EndsWith(ls[k], "\n");
      assert ls[k][|ls[k]| - 1..][0] == '\n';
    }
    ChompedJoinLines(ls);
  }

  /** Lines that are non-empty and end in '\n' but for the last: joining
    * their chomped forms with '\n' gives their concatenation less a final
    * '\n'. */
  lemma {:induction false} ChompedJoinLines(ls: seq<string>)
    requires forall k :: 0 <= k < |ls| ==> |ls[k]| > 0
    requires forall k :: 0 <= k < |ls| - 1 ==> ls[k][|ls[k]| - 1] == '\n'
    ensures Join(Chomped(ls), "\n") == Chomp(Concat(ls))
  {
    if |ls| == 1 {
      assert Concat(ls) == ls[0] + Concat(ls[1..]);
      assert ls[0] + "" == ls[0];
    } else if |ls| > 1 {
      var rest := ls[1..];
      ChompedJoinLines(rest);
      assert ls == [ls[0]] + rest;
      ChompedCons(ls[0], rest);
      JoinCons(Chomp(ls[0]), Chomped(rest), "\n");
      assert Concat(rest) == rest[0] + Concat(rest[1..]);
      ChompHead(ls[0], Concat(rest));
    }
  }

  lemma ChompedCons(x: string, r: seq<string>)
    ensures Chomped([x] + r) == [Chomp(x)] + Chomped(r)
  {
    assert ([x] + r)[1..] == r;
  }

  lemma JoinCons(x: string, r: seq<string>, sep: string)
    requires |r| > 0
    ensures Join([x] + r, sep) == x + sep + Join(r, sep)
  {
    assert ([x] + r)[1..] == r;
  }

  /** Chomping a text made of a complete line and a non-empty rest chomps the rest. */
  lemma ChompHead(head: string, rest: string)
    requires |head| > 0 && head[|head| - 1] == '\n' && |rest| > 0
    ensures Chomp(head) + "\n" + Chomp(rest) == Chomp(head + rest)
  {
    assert Chomp(head) + "\n" == head;
    if rest[|rest| - 1] == '\n' {
      assert (head + rest)[..|head + rest| - 1] == head + rest[..|rest| - 1];
    }
  }

  /** So the intended hash's inputs determine the text of a chunk that does
    * not end in '\n', as every stripped chunk does not. */
  lemma ContentHashInputsDetermine(s1: string, s2: string)
    requires |s1| == 0 || s1[|s1| - 1] != '\n'
    requires |s2| == 0 || s2[|s2| - 1] != '\n'
    requires Chomped(ReadLines(s1)) == Chomped(ReadLines(s2))
    ensures s1 == s2
  {
    ChompedLinesJoin(s1);
    ChompedLinesJoin(s2);
  }
}
