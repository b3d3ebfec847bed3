/*
 * SourcePos: a (line, column) position into one form of a file's lines,
 * with the normalisation done on construction and the `+`/`-` arithmetic
 * that walks over the flattened lines.
 *
 * `ls` is always the sequence of line strings of the form the position
 * refers to (raw, uncommented or stripped).  A position is proved to be in
 * bijection with an offset into `Flat(ls)`, which is what the later
 * layers work with.
 */
module Position {
  import opened Errors
  import opened Text

  datatype Pos = Pos(line: nat, col: nat)

  /** Every line but the last is non-empty.  A file's lines have this shape
    * in every form, since each line but the last ends with '\n'. */
  predicate WellFormed(ls: seq<string>) {
    forall k :: 0 <= k < |ls| - 1 ==> |ls[k]| > 0
  }

  /** The shape of a file's lines in every form: each line but the last
    * ends with '\n', and no line has a '\n' anywhere else.  Stated through
    * Text so that a call needing it checks it as one fact. */
  predicate Shaped(ls: seq<string>) {
    SplitAfterNewlines(ls)
  }

  /** A position in the state SourcePos.__init__ leaves it: on an existing
    * line, at most at that line's end, and at the end only on the last line. */
  predicate Normal(ls: seq<string>, p: Pos) {
    p.line < |ls| && p.col <= |ls[p.line]| &&
    (p.col == |ls[p.line]| ==> p.line == |ls| - 1)
  }

  /** Number of characters before line `k`. */
  function LineStart(ls: seq<string>, k: nat): nat
    requires k <= |ls|
  {
    if k == 0 then 0 else LineStart(ls, k - 1) + |ls[k - 1]|
  }

  /** Number of characters in the whole form. */
  function Total(ls: seq<string>): nat {
    LineStart(ls, |ls|)
  }

  /** The flattened text of the lines. */
  function Flat(ls: seq<string>): (t: string)
    ensures |t| == Total(ls)
  {
    FlatLength(ls);
    Concat(ls)
  }

  /** Flat offset of a position. */
  function Offset(ls: seq<string>, p: Pos): nat
    requires p.line < |ls|
  {
    LineStart(ls, p.line) + p.col
  }

  /** The normal position at flat offset `k` (the inverse of Offset). */
  function PosAt(ls: seq<string>, k: nat): (p: Pos)
    requires |ls| > 0 && k <= Total(ls)
    ensures p.line < |ls|
    decreases |ls|
  {
    if |ls| == 1 || k < |ls[0]| then Pos(0, k)
    else
      TotalTail(ls);
      var p := PosAt(ls[1..], k - |ls[0]|);
      Pos(p.line + 1, p.col)
  }

  /** SourcePos.__init__: negative indices count from the end; an index out
    * of range raises IndexError; a column at the end of a line that is not
    * the last moves to column 0 of the next line. */
  function MakePos(ls: seq<string>, line: int, col: int): (r: Result<Pos>)
  {
    var li := if line < 0 then line + |ls| else line;
    if !(0 <= li < |ls|) then Err(IndexError)
    else
      var len := |ls[li]|;
      var ci := if col < 0 then col + len else col;
      if !(0 <= ci <= len) then Err(IndexError)
      else if ci == len && li < |ls| - 1 then Ok(Pos(li + 1, 0))
      else Ok(Pos(li, ci))
  }

  /** Result of moving `n` characters from `p` over the flattened lines. */
  function Shifted(ls: seq<string>, p: Pos, n: int): Result<Pos>
    requires |ls| > 0 && Normal(ls, p)
  {
    var k := Offset(ls, p) + n;
    if 0 <= k <= Total(ls) then Ok(PosAt(ls, k)) else Err(ValueError)
  }

  // ---------------------------------------------------------------------
  // Offsets and positions

  lemma ConcatAppend(a: seq<string>, b: seq<string>)
    ensures Concat(a + b) == Concat(a) + Concat(b)
  {
    if |a| > 0 {
      assert (a + b)[1..] == a[1..] + b;
      ConcatAppend(a[1..], b);
    } else {
      assert a + b == b;
    }
  }

  /** Line `k + 1` starts where line `k` ends. */
  lemma LineStartNext(ls: seq<string>, k: nat)
    requires k < |ls|
    ensures LineStart(ls, k + 1) == LineStart(ls, k) + |ls[k]|
  {
  }

  /** The lines before line `k` flatten to LineStart(k) characters. */
  lemma {:induction false} PrefixLength(ls: seq<string>, k: nat)
    requires k <= |ls|
    ensures |Concat(ls[..k])| == LineStart(ls, k)
  {
    if k > 0 {
      PrefixLength(ls, k - 1);
      assert ls[..k] == ls[..k - 1] + [ls[k - 1]];
      ConcatAppend(ls[..k - 1], [ls[k - 1]]);
      assert Concat([ls[k - 1]]) == ls[k - 1] + Concat([]);
    } else {
      assert ls[..0] == [];
    }
  }

  /** The flat text has Total characters. */
  lemma FlatLength(ls: seq<string>)
    ensures |Concat(ls)| == Total(ls)
  {
    PrefixLength(ls, |ls|);
    assert ls[..|ls|] == ls;
  }

  /** The flat text is the lines before `k`, line `k`, and the lines after. */
  lemma ConcatSplit(ls: seq<string>, k: nat)
    requires k < |ls|
    ensures Concat(ls) == Concat(ls[..k]) + (ls[k] + Concat(ls[k + 1..]))
  {
    var m := [ls[k]] + ls[k + 1..];
    SplitAt(ls, k);
    ConcatAppend(ls[..k], m);
    ConcatCons(ls[k], ls[k + 1..]);
  }

  lemma SplitAt(ls: seq<string>, k: nat)
    requires k < |ls|
    ensures ls[..k] + ([ls[k]] + ls[k + 1..]) == ls
  {
  }

  lemma ConcatCons(x: string, r: seq<string>)
    ensures Concat([x] + r) == x + Concat(r)
  {
    assert ([x] + r)[1..] == r;
  }

  lemma MiddleSlice(p: string, l: string, r: string, a: nat, b: nat, t: string, off: nat)
    requires a <= b <= |l| && t == p + (l + r) && off == |p|
    ensures off + b <= |t| && t[off + a..off + b] == l[a..b]
  {
    forall i | 0 <= i < b - a
      ensures t[off + a..off + b][i] == l[a..b][i]
    {
      assert t[off + a + i] == l[a + i];
    }
  }

  /** A piece of line `k` is the corresponding piece of the flat text. */
  lemma LinePiece(ls: seq<string>, k: nat, a: nat, b: nat)
    requires k < |ls| && a <= b <= |ls[k]|
    ensures LineStart(ls, k) + |ls[k]| <= Total(ls)
    ensures ls[k][a..b] == Flat(ls)[LineStart(ls, k) + a..LineStart(ls, k) + b]
  {
    var t, pre, post := Flat(ls), Concat(ls[..k]), Concat(ls[k + 1..]);
    LineLayout(ls, k);
    MiddleSlice(pre, ls[k], post, a, b, t, |pre|);
  }

  /** The flat text is the text before line `k`, which is LineStart(k) long, then line `k`, then the rest. */
  lemma LineLayout(ls: seq<string>, k: nat)
    requires k < |ls|
    ensures Flat(ls) == Concat(ls[..k]) + (ls[k] + Concat(ls[k + 1..]))
    ensures |Concat(ls[..k])| == LineStart(ls, k)
    ensures LineStart(ls, k) + |ls[k]| <= Total(ls)
  {
    PrefixLength(ls, k);
    ConcatSplit(ls, k);
  }

  /** A character of line `k` is the corresponding character of the flat text. */
  lemma LineChar(ls: seq<string>, k: nat, i: nat)
    requires k < |ls| && i < |ls[k]|
    ensures LineStart(ls, k) + i < Total(ls)
    ensures ls[k][i] == Flat(ls)[LineStart(ls, k) + i]
  {
    LinePiece(ls, k, i, i + 1);
    assert ls[k][i..i + 1][0] == ls[k][i];
  }

  /** Line starts grow with the line index and end at Total. */
  lemma {:induction false} LineStartMono(ls: seq<string>, j: nat, k: nat)
    requires j <= k <= |ls|
    ensures LineStart(ls, j) <= LineStart(ls, k) <= Total(ls)
    decreases |ls| - j
  {
    if j < k {
      LineStartMono(ls, j + 1, k);
    } else if j < |ls| {
      LineStartMono(ls, j + 1, j + 1);
    }
  }

  /** Dropping the first line shifts every line start by its length. */
  lemma {:induction false} LineStartTail(ls: seq<string>, k: nat)
    requires 0 < k <= |ls|
    ensures LineStart(ls, k) == |ls[0]| + LineStart(ls[1..], k - 1)
  {
    if k > 1 {
      LineStartTail(ls, k - 1);
      assert ls[1..][k - 2] == ls[k - 1];
    }
  }

  lemma TotalTail(ls: seq<string>)
    requires 0 < |ls|
    ensures Total(ls) == |ls[0]| + Total(ls[1..])
  {
    LineStartTail(ls, |ls|);
  }

  /** PosAt yields a normal position whose offset is `k`. */
  lemma {:induction false} PosAtSpec(ls: seq<string>, k: nat)
    requires WellFormed(ls) && |ls| > 0 && k <= Total(ls)
    ensures Normal(ls, PosAt(ls, k)) && Offset(ls, PosAt(ls, k)) == k
    decreases |ls|
  {
    var p := PosAt(ls, k);
    if |ls| == 1 {
      TotalTail(ls);
    } else if k < |ls[0]| {
      assert ls[..0] == [];
    } else {
      TotalTail(ls);
      assert WellFormed(ls[1..]) by {
        forall j | 0 <= j < |ls[1..]| - 1 ensures |ls[1..][j]| > 0 {
          assert ls[1..][j] == ls[j + 1];
        }
      }
      PosAtSpec(ls[1..], k - |ls[0]|);
      LineStartTail(ls, p.line);
    }
  }

  /** Offset then PosAt is the identity on normal positions. */
  lemma {:induction false} OffsetPosAt(ls: seq<string>, p: Pos)
    requires WellFormed(ls) && Normal(ls, p)
    ensures Offset(ls, p) <= Total(ls) && PosAt(ls, Offset(ls, p)) == p
    decreases |ls|
  {
    LineStartNext(ls, p.line);
    LineStartMono(ls, p.line + 1, |ls|);
    if p.line == 0 {
      assert ls[..0] == [];
    } else {
      LineStartTail(ls, p.line);
      TotalTail(ls);
      assert WellFormed(ls[1..]) by {
        forall j | 0 <= j < |ls[1..]| - 1 ensures |ls[1..][j]| > 0 {
          assert ls[1..][j] == ls[j + 1];
        }
      }
      OffsetPosAt(ls[1..], Pos(p.line - 1, p.col));
    }
  }

  /** Normal positions are ordered (line first, then column) exactly as
    * their offsets are; Chunk's constructor relies on this. */
  lemma OrderIff(ls: seq<string>, p: Pos, q: Pos)
    requires WellFormed(ls) && Normal(ls, p) && Normal(ls, q)
    ensures (p.line < q.line || (p.line == q.line && p.col <= q.col))
            <==> Offset(ls, p) <= Offset(ls, q)
    ensures p == q <==> Offset(ls, p) == Offset(ls, q)
  {
    if p.line < q.line {
      LineStartNext(ls, p.line);
      LineStartMono(ls, p.line + 1, q.line);
    } else if q.line < p.line {
      LineStartNext(ls, q.line);
      LineStartMono(ls, q.line + 1, p.line);
    }
  }

  /** What SourcePos.__init__ accepts and where the result points. */
  lemma MakePosSpec(ls: seq<string>, line: int, col: int)
    requires WellFormed(ls)
    ensures var li := if line < 0 then line + |ls| else line;
      MakePos(ls, line, col).Ok? <==>
        0 <= li < |ls| &&
        0 <= (if col < 0 then col + |ls[li]| else col) <= |ls[li]|
    ensures MakePos(ls, line, col).Ok? ==>
      var li := if line < 0 then line + |ls| else line;
      var ci := if col < 0 then col + |ls[li]| else col;
      var p := MakePos(ls, line, col).value;
      Normal(ls, p) && Offset(ls, p) == LineStart(ls, li) + ci
  {
    var li := if line < 0 then line + |ls| else line;
    if 0 <= li < |ls| {
      var ci := if col < 0 then col + |ls[li]| else col;
      if 0 <= ci <= |ls[li]| && ci == |ls[li]| && li < |ls| - 1 {
        LineStartNext(ls, li);
      }
    }
  }

  /** A column inside line `i` (end included) names offset LineStart + col. */
  lemma MakePosAt(ls: seq<string>, i: nat, c: nat)
    requires WellFormed(ls) && i < |ls| && c <= |ls[i]|
    ensures LineStart(ls, i) + c <= Total(ls)
    ensures MakePos(ls, i, c) == Ok(PosAt(ls, LineStart(ls, i) + c))
  {
    MakePosSpec(ls, i, c);
    var p := MakePos(ls, i, c).value;
    OffsetPosAt(ls, p);
  }

  // ---------------------------------------------------------------------
  // Arithmetic

  /** SourcePos.__add__: a negative `n` delegates to `-`; otherwise the rest
    * of the current line, then each following line, absorbs `n`. */
  method Add(ls: seq<string>, p: Pos, n: int) returns (r: Result<Pos>)
    requires WellFormed(ls) && Normal(ls, p)
    ensures r == Shifted(ls, p, n)
    decreases if n < 0 then 1 else 0
  {
    if n < 0 {
      r := Sub(ls, p, -n);
      return;
    }
    var m := n;
    var remaining := |ls[p.line]| - p.col;
    if m <= remaining {
      MakePosAt(ls, p.line, p.col + m);
      r := MakePos(ls, p.line, p.col + m);
      return;
    }
    m := m - remaining;
    var i := p.line + 1;
    LineStartNext(ls, p.line);
    while i < |ls|
      invariant p.line + 1 <= i <= |ls|
      invariant m > 0
      invariant LineStart(ls, i) + m == Offset(ls, p) + n
    {
      var lineChars := |ls[i]|;
      if m <= lineChars {
        MakePosAt(ls, i, m);
        r := MakePos(ls, i, m);
        return;
      }
      m := m - lineChars;
      LineStartNext(ls, i);
      i := i + 1;
    }
    assert ls[..i] == ls;
    r := Err(ValueError);
  }

  /** SourcePos.__sub__: the mirror image of Add, walking back over the
    * preceding lines. */
  method Sub(ls: seq<string>, p: Pos, n: int) returns (r: Result<Pos>)
    requires WellFormed(ls) && Normal(ls, p)
    ensures r == Shifted(ls, p, -n)
    decreases if n < 0 then 1 else 0
  {
    if n < 0 {
      r := Add(ls, p, -n);
      return;
    }
    var m := n;
    var remaining := p.col;
    if m <= remaining {
      MakePosAt(ls, p.line, p.col - m);
      r := MakePos(ls, p.line, p.col - m);
      return;
    }
    m := m - remaining;
    var i := p.line;
    while i > 0
      invariant 0 <= i <= p.line
      invariant m > 0
      invariant LineStart(ls, i) - m == Offset(ls, p) - n
    {
      i := i - 1;
      var lineChars := |ls[i]|;
      LineStartNext(ls, i);
      if m <= lineChars {
        MakePosAt(ls, i, lineChars - m);
        r := MakePos(ls, i, lineChars - m);
        return;
      }
      m := m - lineChars;
    }
    assert ls[..0] == [];
    r := Err(ValueError);
  }

  /** Adding then subtracting the same amount returns to the start. */
  lemma ShiftBack(ls: seq<string>, p: Pos, n: int)
    requires WellFormed(ls) && Normal(ls, p) && Shifted(ls, p, n).Ok?
    ensures Normal(ls, Shifted(ls, p, n).value)
    ensures Shifted(ls, Shifted(ls, p, n).value, -n) == Ok(p)
  {
    var k := Offset(ls, p) + n;
    PosAtSpec(ls, k);
    OffsetPosAt(ls, p);
  }

  /** SourcePos.next_line_pos: column 0 of the following line, or
    * IndexError on the last line. */
  function NextLinePos(ls: seq<string>, p: Pos): (r: Result<Pos>)
    requires WellFormed(ls) && Normal(ls, p)
    ensures r.Ok? <==> p.line + 1 < |ls|
    ensures r.Ok? ==> Normal(ls, r.value) && r.value.col == 0 &&
                      Offset(ls, r.value) == LineStart(ls, p.line + 1)
  {
    MakePosSpec(ls, p.line + 1, 0);
    MakePos(ls, p.line + 1, 0)
  }
}
