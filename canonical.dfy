// The canonical forms of a source file (SourceContent, Line) and the hashes
// computed over them: comments removed, whitespace collapsed, md5 digests
// folded into one number.
module Canonical {
  import opened Text
  import opened Errors

  /** An md5 digest read as an integer, i.e. int(md5(s).hexdigest(), 16). */
  type Digest = n: nat | n < 0x1_0000_0000_0000_0000_0000_0000_0000_0000

  /** The modulus of join_hashes, 2**127 - 1. */
  const HashModulus: nat := 0x7fff_ffff_ffff_ffff_ffff_ffff_ffff_ffff

  // ---------------------------------------------------------------------
  // Reading lines

  /** Index just past the first '\n' of `text`, or |text| when there is none. */
  function LineEnd(text: string): (n: nat)
    ensures 0 < n <= |text| || (n == 0 && |text| == 0)
    ensures forall i :: 0 <= i < n - 1 ==> text[i] != '\n'
    ensures n > 0 && n < |text| ==> text[n - 1] == '\n'
    ensures n == |text| || text[n - 1] == '\n'
  {
    if |text| == 0 then 0
    else if text[0] == '\n' then 1
    else 1 + LineEnd(text[1..])
  }

  /** f.readlines(): the text cut after every '\n', each line keeping its '\n'. */
  function ReadLines(text: string): seq<string>
    decreases |text|
  {
    if |text| == 0 then []
    else
      var n := LineEnd(text);
      [text[..n]] + ReadLines(text[n..])
  }

  /** Every line but the last ends with '\n'; no line holds a '\n' elsewhere; no line is empty. */
  predicate LineShaped(ls: seq<string>) {
    (forall k :: 0 <= k < |ls| ==> |ls[k]| > 0)
    && (forall k :: 0 <= k < |ls| - 1 ==> EndsWith(ls[k], "\n"))
    && (forall k, i :: 0 <= k < |ls| && 0 <= i < |ls[k]| - 1 ==> ls[k][i] != '\n')
  }

  /** readlines loses nothing: the lines concatenate back to the text. */
  lemma {:induction false} ReadLinesConcat(text: string)
    ensures Concat(ReadLines(text)) == text
    decreases |text|
  {
    if |text| > 0 {
      var n := LineEnd(text);
      var rest := ReadLines(text[n..]);
      ReadLinesConcat(text[n..]);
      assert ReadLines(text) == [text[..n]] + rest;
      assert ([text[..n]] + rest)[1..] == rest;
      assert Concat(ReadLines(text)) == text[..n] + Concat(rest);
      assert text[..n] + text[n..] == text;
    }
  }

  /** readlines yields non-empty lines, each but the last ending with its only '\n'. */
  lemma {:induction false} ReadLinesShape(text: string)
    ensures LineShaped(ReadLines(text))
    decreases |text|
  {
    if |text| > 0 {
      var n := LineEnd(text);
      var rest := ReadLines(text[n..]);
      ReadLinesShape(text[n..]);
      var ls := [text[..n]] + rest;
      assert ReadLines(text) == ls;
      forall k | 0 <= k < |ls|
        ensures |ls[k]| > 0
      {
        if k > 0 {
          assert ls[k] == rest[k - 1];
        }
      }
      forall k | 0 <= k < |ls| - 1
        ensures EndsWith(ls[k], "\n")
      {
        if k > 0 {
          assert ls[k] == rest[k - 1];
        } else {
          assert |text[n..]| > 0;
          assert text[..n][n - 1..] == [text[n - 1]];
        }
      }
      forall k, i | 0 <= k < |ls| && 0 <= i < |ls[k]| - 1
        ensures ls[k][i] != '\n'
      {
        if k > 0 {
          assert ls[k] == rest[k - 1];
        }
      }
    }
  }

  // ---------------------------------------------------------------------
  // strip_comments

  /** The pieces of `s[i..]` that lie outside block comments, given whether one is open at `i`. */
  function Unblocked(s: string, i: nat, inBlock: bool): seq<string>
    requires i <= |s|
    decreases |s| - i
  {
    if inBlock then
      var e := Find(s, "*/", i);
      if e == -1 then [] else Unblocked(s, e + 2, false)
    else
      var st := Find(s, "/*", i);
      if st == -1 then [s[i..]] else [s[i..st]] + Unblocked(s, st + 2, true)
  }

  /** Whether a block comment is open at the end of `s`, given whether one is open at `i`. */
  function OpenFrom(s: string, i: nat, inBlock: bool): bool
    requires i <= |s|
    decreases |s| - i
  {
    if inBlock then
      var e := Find(s, "*/", i);
      if e == -1 then true else OpenFrom(s, e + 2, false)
    else
      var st := Find(s, "/*", i);
      if st == -1 then false else OpenFrom(s, st + 2, true)
  }

  /** The code before the first '//' of `s`. */
  function CutLineComment(s: string): string {
    var cut := Find(s, "//", 0);
    if cut == -1 then s else s[..cut]
  }

  /**
   * One line of strip_comments: the uncommented text of `raw` when a block
   * comment is (or is not) open at its start.
   */
  function UncommentLine(raw: string, inBlock: bool): string {
    var code := CutLineComment(Join(Unblocked(raw, 0, inBlock), " "));
    if EndsWith(raw, "\n") && !EndsWith(code, "\n") then code + "\n" else code
  }

  /** Whether a block comment is open at the end of `raw`. */
  function OpenAfter(raw: string, inBlock: bool): bool {
    OpenFrom(raw, 0, inBlock)
  }

  /** strip_comments over consecutive lines, threading the open-block flag. */
  function UncommentLines(raws: seq<string>, inBlock: bool): seq<string>
    decreases |raws|
  {
    if |raws| == 0 then []
    else [UncommentLine(raws[0], inBlock)] + UncommentLines(raws[1..], OpenAfter(raws[0], inBlock))
  }

  /** Whether a block comment is open after consecutive lines. */
  function OpenAfterLines(raws: seq<string>, inBlock: bool): bool
    decreases |raws|
  {
    if |raws| == 0 then inBlock else OpenAfterLines(raws[1..], OpenAfter(raws[0], inBlock))
  }

  /** The block state after two runs of lines is reached by threading it through both. */
  lemma {:induction false} OpenAfterLinesAppend(a: seq<string>, b: seq<string>, inBlock: bool)
    ensures OpenAfterLines(a + b, inBlock) == OpenAfterLines(b, OpenAfterLines(a, inBlock))
    decreases |a|
  {
    if |a| == 0 {
      assert a + b == b;
    } else {
      assert (a + b)[0] == a[0];
      assert (a + b)[1..] == a[1..] + b;
      OpenAfterLinesAppend(a[1..], b, OpenAfter(a[0], inBlock));
    }
  }

  /** Lines can be uncommented in two runs, the second starting in the state the first ended in. */
  lemma {:induction false} UncommentLinesAppend(a: seq<string>, b: seq<string>, inBlock: bool)
    ensures UncommentLines(a + b, inBlock) == UncommentLines(a, inBlock) + UncommentLines(b, OpenAfterLines(a, inBlock))
    decreases |a|
  {
    if |a| == 0 {
      assert a + b == b;
    } else {
      var r, rest := a[0], a[1..];
      var open := OpenAfter(r, inBlock);
      assert a == [r] + rest && a + b == [r] + (rest + b);
      UncommentLinesCons(r, rest + b, inBlock);
      UncommentLinesCons(r, rest, inBlock);
      UncommentLinesAppend(rest, b, open);
      SeqAssoc([UncommentLine(r, inBlock)], UncommentLines(rest, open), UncommentLines(b, OpenAfterLines(rest, open)));
    }
  }

  /** A two-character pattern without ' ' does not appear across a ' ' joint. */
  lemma NoPairAcrossSpace(x: string, y: string, pat: string)
    requires |pat| == 2 && pat[0] != ' ' && pat[1] != ' '
    requires !Contains(x, pat) && !Contains(y, pat)
    ensures !Contains(x + " " + y, pat)
  {
    var s := x + " " + y;
    ContainsIff(x, pat);
    ContainsIff(y, pat);
    forall j | 0 <= j && j + 2 <= |s|
      ensures !OccursAt(s, pat, j)
    {
      if j + 2 <= |x| {
        assert s[j..j + 2] == x[j..j + 2];
        assert !OccursAt(x, pat, j);
      } else if j == |x| - 1 {
        assert s[j..j + 2][1] == ' ';
      } else if j == |x| {
        assert s[j..j + 2][0] == ' ';
      } else {
        assert s[j..j + 2] == y[j - |x| - 1..j - |x| + 1];
        assert !OccursAt(y, pat, j - |x| - 1);
      }
    }
    ContainsIff(s, pat);
  }

  /** Joining pattern-free pieces with ' ' creates no pattern. */
  lemma {:induction false} NoPairInJoin(ps: seq<string>, pat: string)
    requires |pat| == 2 && pat[0] != ' ' && pat[1] != ' '
    requires forall k :: 0 <= k < |ps| ==> !Contains(ps[k], pat)
    ensures !Contains(Join(ps, " "), pat)
    decreases |ps|
  {
    if |ps| == 0 {
      ContainsIff("", pat);
    } else if |ps| > 1 {
      NoPairInJoin(ps[1..], pat);
      NoPairAcrossSpace(ps[0], Join(ps[1..], " "), pat);
    }
  }

  /** A two-character pattern whose second character is not `c` does not appear by appending `c`. */
  lemma NoPairAppend(x: string, c: char, pat: string)
    requires |pat| == 2 && pat[1] != c && !Contains(x, pat)
    ensures !Contains(x + [c], pat)
  {
    var s := x + [c];
    ContainsIff(x, pat);
    forall j | 0 <= j && j + 2 <= |s|
      ensures !OccursAt(s, pat, j)
    {
      if j + 2 <= |x| {
        assert s[j..j + 2] == x[j..j + 2];
        assert !OccursAt(x, pat, j);
      } else {
        assert s[j..j + 2][1] == c;
      }
    }
    ContainsIff(s, pat);
  }

  /** A pattern absent from `s` from index `i` on is absent from every slice of `s` starting at `i`. */
  lemma NoPairInSlice(s: string, i: nat, e: nat, pat: string)
    requires i <= e <= |s| && |pat| == 2
    requires Find(s, pat, i) == -1 || e <= Find(s, pat, i)
    ensures !Contains(s[i..e], pat)
  {
    var f := Find(s, pat, i);
    FindSpec(s, pat, i);
    var t := s[i..e];
    forall j | 0 <= j && j + 2 <= |t|
      ensures !OccursAt(t, pat, j)
    {
      var k := i + j;
      assert f == -1 || k < f;
      assert !OccursAt(s, pat, k);
      OccursAtPair(s, pat, k);
      OccursAtPair(t, pat, j);
      assert t[j] == s[k] && t[j + 1] == s[k + 1];
    }
    ContainsIff(t, pat);
  }

  /** Outside a block comment, a line rest with no opener is kept whole. */
  lemma UnblockNoOpener(s: string, i: nat)
    requires i <= |s| && Find(s, "/*", i) == -1
    ensures Unblocked(s, i, false) == [s[i..]] && !OpenFrom(s, i, false)
  {
  }

  /** No piece kept outside a block comment holds a block-comment opener. */
  lemma {:induction false} UnblockPiecesClean(s: string, i: nat, inBlock: bool)
    requires i <= |s|
    ensures forall k :: 0 <= k < |Unblocked(s, i, inBlock)| ==> !Contains(Unblocked(s, i, inBlock)[k], "/*")
    decreases |s| - i
  {
    if inBlock {
      var e := Find(s, "*/", i);
      if e != -1 {
        UnblockPiecesClean(s, e + 2, false);
      }
    } else {
      var st := Find(s, "/*", i);
      if st == -1 {
        NoPairInSlice(s, i, |s|, "/*");
        UnblockNoOpener(s, i);
        assert s[i..|s|] == s[i..];
      } else {
        var rest := Unblocked(s, st + 2, true);
        UnblockPiecesClean(s, st + 2, true);
        NoPairInSlice(s, i, st, "/*");
        var ps := [s[i..st]] + rest;
        assert Unblocked(s, i, false) == ps;
        forall k | 0 <= k < |ps|
          ensures !Contains(ps[k], "/*")
        {
          if k > 0 {
            assert ps[k] == rest[k - 1];
          }
        }
      }
    }
  }

  /** The code before the first '//' holds no '//'. */
  lemma CutLineCommentClean(s: string)
    ensures !Contains(CutLineComment(s), "//")
    ensures !Contains(s, "/*") ==> !Contains(CutLineComment(s), "/*")
  {
    var cut := Find(s, "//", 0);
    if cut != -1 {
      NoPairInSlice(s, 0, cut, "//");
      assert s[0..cut] == s[..cut];
      if !Contains(s, "/*") && Contains(s[..cut], "/*") {
        ContainsPrefix(s, cut, "/*");
      }
    } else {
      NoPairInSlice(s, 0, |s|, "//");
      assert s[0..|s|] == s;
    }
  }

  /** Uncommented text holds neither a line-comment nor a block-comment opener. */
  lemma UncommentedClean(raw: string, inBlock: bool)
    ensures !Contains(UncommentLine(raw, inBlock), "//")
    ensures !Contains(UncommentLine(raw, inBlock), "/*")
  {
    var pieces := Unblocked(raw, 0, inBlock);
    UnblockPiecesClean(raw, 0, inBlock);
    NoPairInJoin(pieces, "/*");
    var code := CutLineComment(Join(pieces, " "));
    CutLineCommentClean(Join(pieces, " "));
    if EndsWith(raw, "\n") && !EndsWith(code, "\n") {
      NoPairAppend(code, '\n', "//");
      NoPairAppend(code, '\n', "/*");
      assert code + "\n" == code + ['\n'];
    }
  }

  /** A line with no comment opener, read outside a block comment, is left as it is. */
  lemma UncommentLineCommentFree(s: string)
    requires !Contains(s, "/*") && !Contains(s, "//")
    ensures UncommentLine(s, false) == s && !OpenAfter(s, false)
  {
    assert s[0..] == s;
  }

  /** Uncommenting is idempotent: the output of strip_comments is a fixed point of it. */
  lemma {:induction false} UncommentLinesIdempotent(raws: seq<string>, inBlock: bool)
    ensures UncommentLines(UncommentLines(raws, inBlock), false) == UncommentLines(raws, inBlock)
    decreases |raws|
  {
    if |raws| > 0 {
      var u := UncommentLine(raws[0], inBlock);
      var open := OpenAfter(raws[0], inBlock);
      var rest := UncommentLines(raws[1..], open);
      UncommentLinesIdempotent(raws[1..], open);
      UncommentedClean(raws[0], inBlock);
      UncommentLineCommentFree(u);
      var us := [u] + rest;
      assert UncommentLines(raws, inBlock) == us;
      assert us[0] == u && us[1..] == rest;
      assert UncommentLines(us, false) == [u] + UncommentLines(rest, false);
    }
  }

  /** A line lying wholly inside a block comment leaves only its newline, and the comment stays open. */
  lemma UncommentInsideBlock(raw: string)
    requires !Contains(raw, "*/")
    ensures UncommentLine(raw, true) == if EndsWith(raw, "\n") then "\n" else ""
    ensures OpenAfter(raw, true)
  {
    assert Unblocked(raw, 0, true) == [] && OpenFrom(raw, 0, true);
    var code := CutLineComment(Join([], " "));
    assert code == "";
    assert !EndsWith(code, "\n");
    assert code + "\n" == "\n";
  }

  // ---------------------------------------------------------------------
  // Line.stripped

  /** Line.stripped: the words of the uncommented line joined by single spaces, keeping a final '\n'. */
  function Stripped(u: string): string {
    Join(Split(u), " ") + (if EndsWith(u, "\n") then "\n" else "")
  }

  /** The words and the final newline of a stripped line are those of the line it came from. */
  lemma StrippedKeepsWords(u: string)
    ensures Split(Stripped(u)) == Split(u)
    ensures EndsWith(Stripped(u), "\n") <==> EndsWith(u, "\n")
  {
    var ws := Split(u);
    var j := Join(ws, " ");
    SplitJoin(ws);
    if EndsWith(u, "\n") {
      RunsNone("\n", NotSpace);
      RunsAppend(j, "\n", NotSpace);
    } else {
      assert Stripped(u) == j;
      if |ws| > 0 {
        JoinLast(ws, " ");
      }
    }
  }

  /** Two lines strip to the same text exactly when they have the same words and the same final newline. */
  lemma StrippedSameIff(u1: string, u2: string)
    ensures Stripped(u1) == Stripped(u2)
            <==> Split(u1) == Split(u2) && (EndsWith(u1, "\n") <==> EndsWith(u2, "\n"))
  {
    StrippedKeepsWords(u1);
    StrippedKeepsWords(u2);
  }

  /** Stripping a stripped line changes nothing. */
  lemma StrippedIdempotent(u: string)
    ensures Stripped(Stripped(u)) == Stripped(u)
  {
    StrippedKeepsWords(u);
  }

  /** Every whitespace character of `s` is a single ' ' between two non-whitespace characters. */
  predicate SingleSpaced(s: string) {
    forall i {:trigger s[i]} :: 0 <= i < |s| ==>
      NotSpace(s[i]) || (s[i] == ' ' && 0 < i < |s| - 1 && NotSpace(s[i - 1]) && NotSpace(s[i + 1]))
  }

  /** A stripped line holds '\n' only as its last character, and no other whitespace but single inner spaces. */
  lemma StrippedShape(u: string)
    ensures SingleSpaced(Stripped(u)) || (EndsWith(u, "\n") && SingleSpaced(Stripped(u)[..|Stripped(u)| - 1]))
    ensures EndsWith(Stripped(u), "\n") <==> EndsWith(u, "\n")
  {
    var ws := Split(u);
    var j := Join(ws, " ");
    JoinSpaced(ws);
    StrippedKeepsWords(u);
    if EndsWith(u, "\n") {
      assert Stripped(u) == j + "\n";
      assert (j + "\n")[..|j + "\n"| - 1] == j;
    } else {
      assert Stripped(u) == j + "";
      assert j + "" == j;
    }
  }

  /** In a join of words by single spaces, every space sits between two word characters. */
  lemma {:induction false} JoinSpaced(ws: seq<string>)
    requires forall k :: 0 <= k < |ws| ==> |ws[k]| > 0
    requires forall k, i :: 0 <= k < |ws| && 0 <= i < |ws[k]| ==> NotSpace(ws[k][i])
    ensures SingleSpaced(Join(ws, " "))
    decreases |ws|
  {
    if |ws| > 1 {
      JoinSpaced(ws[1..]);
      JoinFirst(ws[1..], " ");
      var w := ws[0];
      var r := Join(ws[1..], " ");
      var j := Join(ws, " ");
      assert j == w + " " + r;
      forall i | 0 <= i < |j|
        ensures NotSpace(j[i]) || (j[i] == ' ' && 0 < i < |j| - 1 && NotSpace(j[i - 1]) && NotSpace(j[i + 1]))
      {
        if i < |w| {
          assert j[i] == w[i];
        } else if i == |w| {
          assert j[i - 1] == w[|w| - 1] && j[i + 1] == r[0];
        } else {
          assert j[i] == r[i - |w| - 1];
          if !NotSpace(j[i]) {
            assert j[i - 1] == r[i - |w| - 2];
            assert j[i + 1] == r[i - |w|];
          }
        }
      }
    }
  }

  /** A stripped line loses its '\n' and nothing else to str.strip(). */
  lemma StripOfStripped(u: string)
    ensures Strip(Stripped(u)) == Join(Split(u), " ")
  {
    var ws := Split(u);
    var j := Join(ws, " ");
    if |ws| > 0 {
      JoinFirst(ws, " ");
      JoinLast(ws, " ");
    }
    StripClean(j);
    if EndsWith(u, "\n") {
      assert Stripped(u) == j + "\n";
      if |j| == 0 {
        assert TrimLeft("\n") == TrimLeft("");
      } else {
        assert TrimLeft(j + "\n") == j + "\n";
        assert (j + "\n")[..|j + "\n"| - 1] == j;
        assert TrimRight(j + "\n") == TrimRight(j);
      }
    }
  }

  /** A stripped line is exactly "\n" when the line has no words and ends with a newline. */
  lemma StrippedBlankIff(u: string)
    ensures Stripped(u) == "\n" <==> Split(u) == [] && EndsWith(u, "\n")
  {
    var ws := Split(u);
    if |ws| > 0 {
      JoinFirst(ws, " ");
      assert NotSpace(Stripped(u)[0]);
    }
  }

  // ---------------------------------------------------------------------
  // join_hashes, iter_hash, stripped_hash

  /** The value join_hashes computes: a base-31 fold of the hashes modulo 2**127 - 1, seeded with 1. */
  function JoinedHash(hs: seq<int>): int {
    if |hs| == 0 then 1
    else (JoinedHash(hs[..|hs| - 1]) * 31 + hs[|hs| - 1]) % HashModulus
  }

  /** join_hashes. */
  method JoinHashes(hs: seq<int>) returns (r: int)
    ensures r == JoinedHash(hs)
    ensures 0 <= r < HashModulus || (r == 1 && |hs| == 0)
  {
    r := 1;
    for k := 0 to |hs|
      invariant r == JoinedHash(hs[..k])
    {
      assert hs[..k + 1][..k] == hs[..k];
      r := (r * 31 + hs[k]) % HashModulus;
    }
    assert hs[..|hs|] == hs;
  }

  /** The joined hash of no hashes is 1; of any hashes, it lies in [0, 2**127 - 1). */
  lemma JoinedHashRange(hs: seq<int>)
    ensures |hs| == 0 ==> JoinedHash(hs) == 1
    ensures 0 <= JoinedHash(hs) < HashModulus
  {
  }

  /** Euclidean remainders modulo 2**127 - 1 ignore whole multiples of it. */
  lemma ModShift(q: int, z: int)
    ensures (q * HashModulus + z) % HashModulus == z % HashModulus
  {
    var r := z % HashModulus;
    assert z == (z / HashModulus) * HashModulus + r;
    assert q * HashModulus + z == (q + z / HashModulus) * HashModulus + r;
    DivUnique(q * HashModulus + z, q + z / HashModulus, r);
  }

  /** x == k * M + r with 0 <= r < M fixes the remainder of x modulo M. */
  lemma DivUnique(x: int, k: int, r: int)
    requires 0 <= r < HashModulus && x == k * HashModulus + r
    ensures x % HashModulus == r
  {
    var k' := x / HashModulus;
    var r' := x % HashModulus;
    assert x == k' * HashModulus + r';
    assert (k - k') * HashModulus == r' - r;
  }

  /** Reducing the running hash before the next step does not change the step. */
  lemma StepReduced(x: int, h: int)
    ensures ((x % HashModulus) * 31 + h) % HashModulus == (x * 31 + h) % HashModulus
  {
    var q := x / HashModulus;
    assert x == q * HashModulus + x % HashModulus;
    assert x * 31 + h == (q * 31) * HashModulus + ((x % HashModulus) * 31 + h);
    ModShift(q * 31, (x % HashModulus) * 31 + h);
  }

  /** Two remainders agree exactly when the difference is a multiple of the modulus. */
  lemma SameRemainder(x: int, y: int)
    ensures x % HashModulus == y % HashModulus <==> (x - y) % HashModulus == 0
  {
    var qy := y / HashModulus;
    assert y == qy * HashModulus + y % HashModulus;
    assert x - y == (-qy) * HashModulus + (x - y % HashModulus);
    ModShift(-qy, x - y % HashModulus);
    var qx := x / HashModulus;
    assert x == qx * HashModulus + x % HashModulus;
    assert x - y % HashModulus == qx * HashModulus + (x % HashModulus - y % HashModulus);
    ModShift(qx, x % HashModulus - y % HashModulus);
    var d := x % HashModulus - y % HashModulus;
    assert 0 < d + HashModulus && d < HashModulus;
    if d < 0 {
      DivUnique(d, -1, d + HashModulus);
    } else {
      DivUnique(d, 0, d);
    }
  }

  /**
   * join_hashes is order-sensitive: two hashes joined in either order give
   * the same value exactly when thirty times their difference is a
   * multiple of 2**127 - 1; hence distinct hashes closer than
   * (2**127 - 1) / 30 always join differently when swapped.
   */
  lemma {:induction false} JoinedPairSwap(a: int, b: int)
    ensures JoinedHash([a, b]) == JoinedHash([b, a]) <==> (30 * (a - b)) % HashModulus == 0
    ensures a != b && 30 * (a - b) < HashModulus && 30 * (b - a) < HashModulus ==>
      JoinedHash([a, b]) != JoinedHash([b, a])
  {
    assert [a, b][..1] == [a] && [b, a][..1] == [b];
    assert [a][..0] == [] && [b][..0] == [];
    assert JoinedHash([a]) == (31 + a) % HashModulus && JoinedHash([b]) == (31 + b) % HashModulus;
    assert JoinedHash([a, b]) == (((31 + a) % HashModulus) * 31 + b) % HashModulus;
    assert JoinedHash([b, a]) == (((31 + b) % HashModulus) * 31 + a) % HashModulus;
    StepReduced(31 + a, b);
    StepReduced(31 + b, a);
    SameRemainder((31 + a) * 31 + b, (31 + b) * 31 + a);
    assert ((31 + a) * 31 + b) - ((31 + b) * 31 + a) == 30 * (a - b);
    var d := 30 * (a - b);
    if a != b && d < HashModulus && -d < HashModulus {
      if d > 0 {
        DivUnique(d, 0, d);
      } else {
        DivUnique(d, -1, d + HashModulus);
      }
    }
  }

  /** The md5 digests of the strings, in order. */
  function Digests(md5: string -> Digest, ss: seq<string>): (ds: seq<int>)
    ensures |ds| == |ss| && forall k :: 0 <= k < |ss| ==> ds[k] == md5(ss[k])
  {
    if |ss| == 0 then [] else [md5(ss[0]) as int] + Digests(md5, ss[1..])
  }

  /** iter_hash: the joined md5 digests of the strings. */
  function IterHash(md5: string -> Digest, ss: seq<string>): int {
    JoinedHash(Digests(md5, ss))
  }

  /** What stripped_hash feeds to iter_hash for one line: nothing for a blank line, else its stripped form, str.strip()ped. */
  function HashedLine(u: string): seq<string> {
    if Stripped(u) == "\n" then [] else [Strip(Stripped(u))]
  }

  /** The strings stripped_hash feeds to iter_hash for a sequence of uncommented lines. */
  function HashedLines(us: seq<string>): seq<string>
    decreases |us|
  {
    if |us| == 0 then [] else HashedLine(us[0]) + HashedLines(us[1..])
  }

  /**
   * What stripped_hash hashes for a line, stated without Line.stripped: the
   * words of the line joined by single spaces, unless the line has no words
   * and ends with a newline.
   */
  lemma HashedLineWords(u: string)
    ensures HashedLine(u) == if Split(u) == [] && EndsWith(u, "\n") then [] else [Join(Split(u), " ")]
  {
    StrippedBlankIff(u);
    StripOfStripped(u);
  }

  lemma {:induction false} HashedLinesAppend(a: seq<string>, b: seq<string>)
    ensures HashedLines(a + b) == HashedLines(a) + HashedLines(b)
    decreases |a|
  {
    if |a| == 0 {
      assert a + b == b;
    } else {
      var h := HashedLine(a[0]);
      assert (a + b)[0] == a[0] && (a + b)[1..] == a[1..] + b;
      assert HashedLines(a + b) == h + HashedLines(a[1..] + b);
      HashedLinesAppend(a[1..], b);
      SeqAssoc(h, HashedLines(a[1..]), HashedLines(b));
    }
  }

  /** The value of SourceContent.stripped_hash for the raw lines of a file. */
  function StrippedHashOf(md5: string -> Digest, raws: seq<string>): int {
    IterHash(md5, HashedLines(UncommentLines(raws, false)))
  }

  /** A blank line ending in '\n' is dropped by stripped_hash, inside or outside a block comment. */
  lemma UncommentBlank(w: string, inBlock: bool)
    requires EndsWith(w, "\n") && forall i :: 0 <= i < |w| ==> IsSpace(w[i])
    ensures OpenAfter(w, inBlock) == inBlock
    ensures Stripped(UncommentLine(w, inBlock)) == "\n"
  {
    forall j | 0 <= j && j + 2 <= |w|
      ensures !OccursAt(w, "/*", j) && !OccursAt(w, "*/", j) && !OccursAt(w, "//", j)
    {
      assert w[j..j + 2][0] == w[j];
    }
    ContainsIff(w, "/*");
    ContainsIff(w, "*/");
    ContainsIff(w, "//");
    ContainsIff("", "//");
    var u := UncommentLine(w, inBlock);
    if !inBlock {
      assert w[0..] == w;
      assert u == w;
      RunsNone(w, NotSpace);
    } else {
      assert u == "\n";
      RunsNone(u, NotSpace);
    }
    StrippedBlankIff(u);
  }

  /** Uncommenting a line followed by more lines. */
  lemma UncommentLinesCons(r: string, b: seq<string>, inBlock: bool)
    ensures UncommentLines([r] + b, inBlock) == [UncommentLine(r, inBlock)] + UncommentLines(b, OpenAfter(r, inBlock))
  {
    assert ([r] + b)[0] == r && ([r] + b)[1..] == b;
  }

  /** Uncommenting one more line extends the output by that line, read in the state the others left. */
  lemma UncommentLinesSnoc(raws: seq<string>, r: string, inBlock: bool)
    ensures UncommentLines(raws + [r], inBlock) == UncommentLines(raws, inBlock) + [UncommentLine(r, OpenAfterLines(raws, inBlock))]
    ensures OpenAfterLines(raws + [r], inBlock) == OpenAfter(r, OpenAfterLines(raws, inBlock))
  {
    var open := OpenAfterLines(raws, inBlock);
    calc {
      UncommentLines(raws + [r], inBlock);
      { UncommentLinesAppend(raws, [r], inBlock); }
      UncommentLines(raws, inBlock) + UncommentLines([r], open);
      { assert [r][1..] == []; }
      UncommentLines(raws, inBlock) + [UncommentLine(r, open)];
    }
    calc {
      OpenAfterLines(raws + [r], inBlock);
      { OpenAfterLinesAppend(raws, [r], inBlock); }
      OpenAfterLines([r], open);
      { assert [r][1..] == []; }
      OpenAfter(r, open);
    }
  }

  /** The uncommented lines of a file split around one of its lines. */
  lemma UncommentAround(a: seq<string>, r: string, b: seq<string>)
    ensures var open := OpenAfterLines(a, false);
            UncommentLines(a + [r] + b, false)
              == UncommentLines(a, false) + [UncommentLine(r, open)] + UncommentLines(b, OpenAfter(r, open))
  {
    var open := OpenAfterLines(a, false);
    assert a + [r] + b == a + ([r] + b);
    UncommentLinesAppend(a, [r] + b, false);
    UncommentLinesCons(r, b, open);
    SeqAssoc(UncommentLines(a, false), [UncommentLine(r, open)], UncommentLines(b, OpenAfter(r, open)));
  }

  lemma SeqAssoc(x: seq<string>, y: seq<string>, z: seq<string>)
    ensures x + (y + z) == x + y + z
  {
  }

  /** The hashed strings of a sequence of lines split around one of them. */
  lemma HashedLinesAround(ua: seq<string>, u: string, ub: seq<string>)
    ensures HashedLines(ua + [u] + ub) == HashedLines(ua) + HashedLine(u) + HashedLines(ub)
  {
    HashedLinesSingle(u);
    HashedLinesAppend(ua + [u], ub);
    HashedLinesAppend(ua, [u]);
  }

  lemma HashedLinesSingle(u: string)
    ensures HashedLines([u]) == HashedLine(u)
  {
    assert [u][1..] == [];
    assert HashedLines([u]) == HashedLine(u) + [];
  }

  /** The hashed strings of a file split around one of its lines. */
  lemma HashedAround(a: seq<string>, r: string, b: seq<string>)
    ensures var open := OpenAfterLines(a, false);
            HashedLines(UncommentLines(a + [r] + b, false))
              == HashedLines(UncommentLines(a, false)) + HashedLine(UncommentLine(r, open))
                 + HashedLines(UncommentLines(b, OpenAfter(r, open)))
  {
    var open := OpenAfterLines(a, false);
    UncommentAround(a, r, b);
    HashedLinesAround(UncommentLines(a, false), UncommentLine(r, open), UncommentLines(b, OpenAfter(r, open)));
  }

  /** Inserting a blank line anywhere leaves the stripped hash of a file unchanged. */
  lemma BlankLineInvariance(md5: string -> Digest, a: seq<string>, w: string, b: seq<string>)
    requires EndsWith(w, "\n") && forall i :: 0 <= i < |w| ==> IsSpace(w[i])
    ensures StrippedHashOf(md5, a + [w] + b) == StrippedHashOf(md5, a + b)
  {
    var open := OpenAfterLines(a, false);
    var ua := UncommentLines(a, false);
    var ub := UncommentLines(b, open);
    calc {
      HashedLines(UncommentLines(a + [w] + b, false));
      { HashedAround(a, w, b); }
      HashedLines(ua) + HashedLine(UncommentLine(w, open)) + HashedLines(UncommentLines(b, OpenAfter(w, open)));
      { UncommentBlank(w, open); }
      HashedLines(ua) + [] + HashedLines(ub);
      { assert HashedLines(ua) + [] == HashedLines(ua); }
      HashedLines(ua) + HashedLines(ub);
      { HashedLinesAppend(ua, ub); }
      HashedLines(ua + ub);
      { UncommentLinesAppend(a, b, false); }
      HashedLines(UncommentLines(a + b, false));
    }
  }

  /**
   * Re-spacing a comment-free line (same words, same final newline) leaves the
   * stripped hash of a file unchanged.
   */
  lemma RespacingInvariance(md5: string -> Digest, a: seq<string>, r1: string, r2: string, b: seq<string>)
    requires !Contains(r1, "/*") && !Contains(r1, "*/") && !Contains(r1, "//")
    requires !Contains(r2, "/*") && !Contains(r2, "*/") && !Contains(r2, "//")
    requires Split(r1) == Split(r2) && (EndsWith(r1, "\n") <==> EndsWith(r2, "\n"))
    ensures StrippedHashOf(md5, a + [r1] + b) == StrippedHashOf(md5, a + [r2] + b)
  {
    var open := OpenAfterLines(a, false);
    HashedAround(a, r1, b);
    HashedAround(a, r2, b);
    if open {
      UncommentInsideBlock(r1);
      UncommentInsideBlock(r2);
    } else {
      UncommentLineCommentFree(r1);
      UncommentLineCommentFree(r2);
    }
    var u1 := UncommentLine(r1, open);
    var u2 := UncommentLine(r2, open);
    assert OpenAfter(r1, open) == OpenAfter(r2, open);
    StrippedSameIff(u1, u2);
    assert HashedLine(u1) == HashedLine(u2);
    assert HashedLines(UncommentLines(a + [r1] + b, false)) == HashedLines(UncommentLines(a + [r2] + b, false));
  }

  /** The delimiter Unblocked and OpenFrom look for next. */
  function Delimiter(inBlock: bool): string {
    if inBlock then "*/" else "/*"
  }

  /** One step of OpenFrom, given where the next delimiter is and the offset after it. */
  lemma OpenFromUnfold(s: string, i: nat, inBlock: bool, f: int, n: int)
    requires i <= |s| && f == Find(s, Delimiter(inBlock), i) && n == f + 2
    ensures f == -1 ==> OpenFrom(s, i, inBlock) == inBlock
    ensures f != -1 ==> 0 <= n <= |s| && OpenFrom(s, i, inBlock) == OpenFrom(s, n, !inBlock)
  {
  }

  /** Text after offset |p| is cut the same way whatever precedes it. */
  lemma UnblockedShift(p: string, s: string, k: nat, inBlock: bool)
    requires k <= |s|
    ensures Unblocked(p + s, |p| + k, inBlock) == Unblocked(s, k, inBlock)
  {
    if inBlock {
      UnblockedShiftIn(p, s, k);
    } else {
      UnblockedShiftOut(p, s, k);
    }
  }

  /** One step of Unblocked inside a block comment: skip to after the closer. */
  lemma UnblockedInStep(s: string, i: nat, f: int, n: int)
    requires i <= |s| && f == Find(s, "*/", i) && n == f + 2
    ensures f == -1 ==> Unblocked(s, i, true) == []
    ensures f != -1 ==> 0 <= n <= |s| && Unblocked(s, i, true) == Unblocked(s, n, false)
  {
  }

  /** One step of Unblocked outside a block comment: keep `piece`, the text up to the opener. */
  lemma UnblockedOutStep(s: string, i: nat, f: int, n: int, piece: string)
    requires i <= |s| && f == Find(s, "/*", i) && n == f + 2
    requires f == -1 ==> piece == s[i..]
    requires f != -1 ==> piece == s[i..f]
    ensures f == -1 ==> Unblocked(s, i, false) == [piece]
    ensures f != -1 ==> 0 <= n <= |s| && Unblocked(s, i, false) == [piece] + Unblocked(s, n, true)
  {
  }

  /** Inside a block comment with no closer after `k`, nothing is kept either way. */
  lemma UnblockedShiftInEnd(p: string, s: string, k: nat)
    requires k <= |s| && Find(s, "*/", k) == -1
    ensures Unblocked(p + s, |p| + k, true) == Unblocked(s, k, true)
  {
    FindShift(p, s, "*/", k);
    UnblockedInStep(s, k, -1, 1);
    UnblockedInStep(p + s, |p| + k, -1, 1);
  }

  /** Inside a block comment, both texts resume after the same closer. */
  lemma UnblockedShiftInClose(p: string, s: string, k: nat, f: nat)
    requires k <= |s| && Find(s, "*/", k) == f
    requires f + 2 <= |s| && Unblocked(p + s, |p| + (f + 2), false) == Unblocked(s, f + 2, false)
    ensures Unblocked(p + s, |p| + k, true) == Unblocked(s, k, true)
  {
    FindShift(p, s, "*/", k);
    UnblockedInStep(s, k, f, f + 2);
    UnblockedInStep(p + s, |p| + k, |p| + f, |p| + (f + 2));
  }

  /** Outside a block comment with no opener after `k`, both keep the same rest of the text. */
  lemma UnblockedShiftOutEnd(p: string, s: string, k: nat)
    requires k <= |s| && Find(s, "/*", k) == -1
    ensures Unblocked(p + s, |p| + k, false) == Unblocked(s, k, false)
  {
    FindShift(p, s, "/*", k);
    SliceShift(p, s, k, |s|);
    var piece := s[k..];
    assert s[k..|s|] == piece && (p + s)[|p| + k..|p| + |s|] == (p + s)[|p| + k..];
    UnblockedOutStep(s, k, -1, 1, piece);
    UnblockedOutStep(p + s, |p| + k, -1, 1, piece);
  }

  /** Outside a block comment, both keep the same piece up to the same opener. */
  lemma UnblockedShiftOutOpen(p: string, s: string, k: nat, f: nat)
    requires k <= |s| && Find(s, "/*", k) == f
    requires f + 2 <= |s| && Unblocked(p + s, |p| + (f + 2), true) == Unblocked(s, f + 2, true)
    ensures Unblocked(p + s, |p| + k, false) == Unblocked(s, k, false)
  {
    FindShift(p, s, "/*", k);
    SliceShift(p, s, k, f);
    var piece := s[k..f];
    UnblockedOutStep(s, k, f, f + 2, piece);
    UnblockedOutStep(p + s, |p| + k, |p| + f, |p| + (f + 2), piece);
  }

  lemma {:induction false} UnblockedShiftIn(p: string, s: string, k: nat)
    requires k <= |s|
    ensures Unblocked(p + s, |p| + k, true) == Unblocked(s, k, true)
    decreases |s| - k, 0
  {
    var f := Find(s, "*/", k);
    if f == -1 {
      UnblockedShiftInEnd(p, s, k);
    } else {
      UnblockedShiftOut(p, s, f + 2);
      UnblockedShiftInClose(p, s, k, f);
    }
  }

  lemma {:induction false} UnblockedShiftOut(p: string, s: string, k: nat)
    requires k <= |s|
    ensures Unblocked(p + s, |p| + k, false) == Unblocked(s, k, false)
    decreases |s| - k, 1
  {
    var f := Find(s, "/*", k);
    if f == -1 {
      UnblockedShiftOutEnd(p, s, k);
    } else {
      UnblockedShiftIn(p, s, f + 2);
      UnblockedShiftOutOpen(p, s, k, f);
    }
  }

  /** Whether a block comment stays open after offset |p| does not depend on what precedes it. */
  lemma {:induction false} OpenFromShift(p: string, s: string, k: nat, inBlock: bool)
    requires k <= |s|
    ensures OpenFrom(p + s, |p| + k, inBlock) == OpenFrom(s, k, inBlock)
    decreases |s| - k
  {
    var f := Find(s, Delimiter(inBlock), k);
    if f == -1 {
      OpenFromShiftEnd(p, s, k, inBlock);
    } else {
      OpenFromShift(p, s, f + 2, !inBlock);
      OpenFromShiftCross(p, s, k, inBlock, f);
    }
  }

  /** With no delimiter after `k`, both texts end in the state they are in at `k`. */
  lemma OpenFromShiftEnd(p: string, s: string, k: nat, inBlock: bool)
    requires k <= |s| && Find(s, Delimiter(inBlock), k) == -1
    ensures OpenFrom(p + s, |p| + k, inBlock) == OpenFrom(s, k, inBlock)
  {
    FindShift(p, s, Delimiter(inBlock), k);
    OpenFromUnfold(s, k, inBlock, -1, 1);
    OpenFromUnfold(p + s, |p| + k, inBlock, -1, 1);
  }

  /** Both texts cross the same delimiter and go on from just after it. */
  lemma OpenFromShiftCross(p: string, s: string, k: nat, inBlock: bool, f: nat)
    requires k <= |s| && Find(s, Delimiter(inBlock), k) == f
    requires f + 2 <= |s| && OpenFrom(p + s, |p| + (f + 2), !inBlock) == OpenFrom(s, f + 2, !inBlock)
    ensures OpenFrom(p + s, |p| + k, inBlock) == OpenFrom(s, k, inBlock)
  {
    FindShift(p, s, Delimiter(inBlock), k);
    OpenFromUnfold(s, k, inBlock, f, f + 2);
    OpenFromUnfold(p + s, |p| + k, inBlock, |p| + f, |p| + (f + 2));
  }

  lemma {:induction false} SliceShift(p: string, s: string, i: nat, j: nat)
    requires i <= j <= |s|
    ensures (p + s)[|p| + i..|p| + j] == s[i..j]
  {
  }

  /** Two lines that uncomment alike and leave the same block state, in
    * the state the lines before them leave, give files with the same
    * stripped hash. */
  lemma {:induction false} SameLineEffect(md5: string -> Digest, a: seq<string>, r1: string, r2: string, b: seq<string>)
    requires var open := OpenAfterLines(a, false);
      UncommentLine(r1, open) == UncommentLine(r2, open) && OpenAfter(r1, open) == OpenAfter(r2, open)
    ensures StrippedHashOf(md5, a + [r1] + b) == StrippedHashOf(md5, a + [r2] + b)
  {
    HashedAround(a, r1, b);
    HashedAround(a, r2, b);
  }

  /** str.find of "//" in a line that holds code + "//" stops within that prefix. */
  lemma {:induction false} FindLineComment(code: string, rest: string) returns (c: nat)
    ensures c <= |code| && Find(code + "//", "//", 0) == c
    ensures Find(code + "//" + rest, "//", 0) == c
  {
    var p := code + "//";
    assert p[|code|..|code| + 2] == "//";
    FindSome(p, "//", 0, |code|);
    c := Find(p, "//", 0);
    FindExtends(p, rest, "//", 0);
  }

  /** A line ending in a line comment, with no block-comment marker
    * anywhere on it, uncomments and leaves the block state the same way
    * whatever the comment's text. */
  lemma {:induction false} LineCommentLine(code: string, t1: string, t2: string, inBlock: bool)
    requires !Contains(code + "//" + t1 + "\n", "/*") && !Contains(code + "//" + t1 + "\n", "*/")
    requires !Contains(code + "//" + t2 + "\n", "/*") && !Contains(code + "//" + t2 + "\n", "*/")
    ensures UncommentLine(code + "//" + t1 + "\n", inBlock) == UncommentLine(code + "//" + t2 + "\n", inBlock)
    ensures OpenAfter(code + "//" + t1 + "\n", inBlock) == OpenAfter(code + "//" + t2 + "\n", inBlock)
  {
    var r1, r2 := code + "//" + t1 + "\n", code + "//" + t2 + "\n";
    assert EndsWith(r1, "\n") && EndsWith(r2, "\n");
    if inBlock {
      UncommentInsideBlock(r1);
      UncommentInsideBlock(r2);
    } else {
      UnblockNoOpener(r1, 0);
      UnblockNoOpener(r2, 0);
      assert r1[0..] == r1 && r2[0..] == r2;
      assert r1 == code + "//" + (t1 + "\n") && r2 == code + "//" + (t2 + "\n");
      var c := FindLineComment(code, t1 + "\n");
      var c' := FindLineComment(code, t2 + "\n");
      assert r1[..c] == r2[..c];
    }
  }

  /**
   * Editing the text of a line comment leaves the stripped hash of a file
   * unchanged, as long as neither version of the line holds a
   * block-comment opener or closer (see CommentedOpenerHidesNextLine for
   * what an opener there does).
   */
  lemma {:induction false} LineCommentEditInvariance(md5: string -> Digest, a: seq<string>, code: string, t1: string, t2: string, b: seq<string>)
    requires !Contains(code + "//" + t1 + "\n", "/*") && !Contains(code + "//" + t1 + "\n", "*/")
    requires !Contains(code + "//" + t2 + "\n", "/*") && !Contains(code + "//" + t2 + "\n", "*/")
    ensures StrippedHashOf(md5, a + [code + "//" + t1 + "\n"] + b) == StrippedHashOf(md5, a + [code + "//" + t2 + "\n"] + b)
  {
    LineCommentLine(code, t1, t2, OpenAfterLines(a, false));
    SameLineEffect(md5, a, code + "//" + t1 + "\n", code + "//" + t2 + "\n", b);
  }

  /** The first occurrence of a two-character pattern that is not in x
    * nor formed with the first character after it. */
  lemma {:induction false} FindAfterClean(x: string, pat: string, y: string)
    requires |pat| == 2 && pat[1] != pat[0] && !Contains(x, pat)
    ensures Find(x + pat + y, pat, 0) == |x|
  {
    var r := x + pat + y;
    ContainsIff(x, pat);
    assert r[|x|..|x| + 2] == pat;
    forall j | 0 <= j < |x|
      ensures !OccursAt(r, pat, j)
    {
      if j + 2 <= |x| {
        assert r[j..j + 2] == x[j..j + 2];
        assert !OccursAt(x, pat, j);
      } else {
        assert r[j..j + 2][1] == pat[0];
      }
    }
    FindSome(r, pat, 0, |x|);
    FindSpec(r, pat, 0);
  }

  /** Outside a block comment, a line whose first opener follows x keeps
    * x and continues inside the comment. */
  lemma {:induction false} OpenerAfter(r: string, x: string, rest: string, n: nat)
    requires r == x + "/*" + rest && !Contains(x, "/*") && n == |x| + 2
    ensures Unblocked(r, 0, false) == [x] + Unblocked(r, n, true)
    ensures OpenFrom(r, 0, false) == OpenFrom(r, n, true)
  {
    FindAfterClean(x, "/*", rest);
    assert r[0..|x|] == x;
  }

  /** Inside a block comment opened just before t, the comment closes right
    * after t when t holds no closer. */
  lemma {:induction false} CloserAfter(r: string, q: string, t: string, y: string, n: nat)
    requires r == q + (t + "*/" + y) && !Contains(t, "*/") && n == |q| + |t| + 2
    ensures Unblocked(r, |q|, true) == Unblocked(r, n, false)
    ensures OpenFrom(r, |q|, true) == OpenFrom(r, n, false)
  {
    var z := t + "*/" + y;
    FindAfterClean(t, "*/", y);
    FindShiftFound(q, z, "*/", |t|);
    UnblockedAtCloser(r, |q|, |q| + |t|);
  }

  /** Inside a block comment, the text up to the next closer is dropped. */
  lemma {:induction false} UnblockedAtCloser(r: string, i: nat, e: nat)
    requires i <= |r| && Find(r, "*/", i) == e
    ensures e + 2 <= |r|
    ensures Unblocked(r, i, true) == Unblocked(r, e + 2, false)
    ensures OpenFrom(r, i, true) == OpenFrom(r, e + 2, false)
  {
  }

  /** Outside a block comment, what follows a prefix w is cut as if alone. */
  lemma {:induction false} UnblockedAfter(r: string, w: string, y: string)
    requires r == w + y
    ensures Unblocked(r, |w|, false) == Unblocked(y, 0, false)
    ensures OpenFrom(r, |w|, false) == OpenFrom(y, 0, false)
  {
    UnblockedShift(w, y, 0, false);
    OpenFromShift(w, y, 0, false);
  }

  /** A one-line block comment is cut out of its line: the pieces are the
    * code before it and those of the text after it. */
  lemma {:induction false} BlockCommentPieces(x: string, t: string, y: string)
    requires !Contains(x, "/*") && !Contains(t, "*/")
    ensures var r := x + "/*" + t + "*/" + y;
      Unblocked(r, 0, false) == [x] + Unblocked(y, 0, false) &&
      OpenFrom(r, 0, false) == OpenFrom(y, 0, false) &&
      (EndsWith(r, "\n") <==> EndsWith(y, "\n"))
  {
    var r := x + "/*" + t + "*/" + y;
    var q := x + "/*";
    var w := q + t + "*/";
    assert r == x + "/*" + (t + "*/" + y) && r == q + (t + "*/" + y) && r == w + y;
    assert |w| == |q| + |t| + 2 && |q| == |x| + 2;
    OpenerAfter(r, x, t + "*/" + y, |q|);
    CloserAfter(r, q, t, y, |w|);
    UnblockedAfter(r, w, y);
    PiecesChain(r, x, y, |q|, |w|);
    EndsWithAfter(w, y);
  }

  /** Chains the three cuts of BlockCommentPieces. */
  lemma PiecesChain(r: string, x: string, y: string, i: nat, j: nat)
    requires i <= |r| && j <= |r|
    requires Unblocked(r, 0, false) == [x] + Unblocked(r, i, true) && OpenFrom(r, 0, false) == OpenFrom(r, i, true)
    requires Unblocked(r, i, true) == Unblocked(r, j, false) && OpenFrom(r, i, true) == OpenFrom(r, j, false)
    requires Unblocked(r, j, false) == Unblocked(y, 0, false) && OpenFrom(r, j, false) == OpenFrom(y, 0, false)
    ensures Unblocked(r, 0, false) == [x] + Unblocked(y, 0, false)
    ensures OpenFrom(r, 0, false) == OpenFrom(y, 0, false)
  {
  }

  /** A text ending in a slash, followed by y, ends in a newline exactly when y does. */
  lemma EndsWithAfter(w: string, y: string)
    requires |w| > 0 && w[|w| - 1] == '/'
    ensures EndsWith(w + y, "\n") <==> EndsWith(y, "\n")
  {
    var r := w + y;
    if |y| > 0 {
      assert r[|r| - 1..] == y[|y| - 1..];
    } else {
      assert r[|r| - 1..] == "/";
    }
  }

  /** A one-line block comment opened outside a block comment uncomments
    * and leaves the block state the same way whatever its text. */
  lemma {:induction false} BlockCommentLine(x: string, t1: string, t2: string, y: string)
    requires !Contains(x, "/*") && !Contains(t1, "*/") && !Contains(t2, "*/")
    ensures UncommentLine(x + "/*" + t1 + "*/" + y, false) == UncommentLine(x + "/*" + t2 + "*/" + y, false)
    ensures OpenAfter(x + "/*" + t1 + "*/" + y, false) == OpenAfter(x + "/*" + t2 + "*/" + y, false)
  {
    BlockCommentPieces(x, t1, y);
    BlockCommentPieces(x, t2, y);
  }

  /**
   * Editing the text of a block comment that opens and closes on one line,
   * outside a block comment, leaves the stripped hash of a file unchanged,
   * whatever follows the comment on that line.
   */
  lemma {:induction false} BlockCommentEditInvariance(md5: string -> Digest, a: seq<string>, x: string, t1: string, t2: string, y: string,
                                   b: seq<string>)
    requires !OpenAfterLines(a, false)
    requires !Contains(x, "/*") && !Contains(t1, "*/") && !Contains(t2, "*/")
    ensures StrippedHashOf(md5, a + [x + "/*" + t1 + "*/" + y] + b) == StrippedHashOf(md5, a + [x + "/*" + t2 + "*/" + y] + b)
  {
    BlockCommentLine(x, t1, t2, y);
    SameLineEffect(md5, a, x + "/*" + t1 + "*/" + y, x + "/*" + t2 + "*/" + y, b);
  }

  /**
   * As written, strip_comments looks for a block-comment opener before it
   * cuts at "//", so an opener inside a line comment opens a block
   * comment: the line leaves one open, and the code of the next line (one
   * without a closer) no longer counts in the stripped hash.
   */
  lemma {:induction false} CommentedOpenerHidesNextLine(md5: string -> Digest, a: seq<string>, code: string, t: string, u: string,
                                     y1: string, y2: string, b: seq<string>)
    requires !OpenAfterLines(a, false)
    requires !Contains(code + "//" + t, "/*") && !Contains(u + "\n", "*/")
    requires !Contains(y1, "*/") && !Contains(y2, "*/")
    requires EndsWith(y1, "\n") == EndsWith(y2, "\n")
    ensures OpenAfter(code + "//" + t + "/*" + u + "\n", false)
    ensures var r := code + "//" + t + "/*" + u + "\n";
      StrippedHashOf(md5, a + [r] + [y1] + b) == StrippedHashOf(md5, a + [r] + [y2] + b)
  {
    var p := code + "//" + t;
    var r := code + "//" + t + "/*" + u + "\n";
    assert r == p + "/*" + (u + "\n");
    FindAfterClean(p, "/*", u + "\n");
    assert r == (p + "/*") + (u + "\n");
    FindShift(p + "/*", u + "\n", "*/", 0);
    assert OpenAfter(r, false);
    OpenAfterLinesAppend(a, [r], false);
    assert OpenAfterLines([r], false) == OpenAfterLines([], OpenAfter(r, false));
    UncommentInsideBlock(y1);
    UncommentInsideBlock(y2);
    assert a + [r] + [y1] + b == (a + [r]) + [y1] + b;
    assert a + [r] + [y2] + b == (a + [r]) + [y2] + b;
    SameLineEffect(md5, a + [r], y1, y2, b);
  }

  /** The inner loop of strip_comments: the pieces of a line outside block comments. */
  method UnblockLine(s: string, inBlock: bool) returns (pieces: seq<string>, open: bool)
    ensures pieces == Unblocked(s, 0, inBlock) && open == OpenFrom(s, 0, inBlock)
  {
    var i := 0;
    pieces := [];
    open := inBlock;
    while true
      invariant 0 <= i <= |s|
      invariant pieces + Unblocked(s, i, open) == Unblocked(s, 0, inBlock)
      invariant OpenFrom(s, i, open) == OpenFrom(s, 0, inBlock)
      decreases |s| - i
    {
      if open {
        var e := Find(s, "*/", i);
        if e == -1 {
          UnblockedInBlockEnd(s, i, pieces, inBlock);
          break;
        }
        var i0 := i;
        i, open := e + 2, false;
        UnblockedClose(s, i0, e, i, open, pieces, inBlock);
      } else {
        var st := Find(s, "/*", i);
        var piece := s[i..|s|];
        if st == -1 {
          UnblockedOutsideEnd(s, i, piece, pieces, inBlock);
          pieces := pieces + [piece];
          break;
        }
        piece := s[i..st];
        var i0, pieces0 := i, pieces;
        i, open, pieces := st + 2, true, pieces + [piece];
        UnblockedOpen(s, i0, st, i, open, piece, pieces0, pieces, inBlock);
      }
    }
  }

  /** The inner loop's step at a block-comment closer at `e`. */
  lemma UnblockedClose(s: string, i: nat, e: int, n: int, open: bool, pieces: seq<string>, inBlock: bool)
    requires i <= |s| && e == Find(s, "*/", i) && e != -1 && n == e + 2 && !open
    requires pieces + Unblocked(s, i, true) == Unblocked(s, 0, inBlock)
    requires OpenFrom(s, i, true) == OpenFrom(s, 0, inBlock)
    ensures i < n <= |s|
    ensures pieces + Unblocked(s, n, open) == Unblocked(s, 0, inBlock)
    ensures OpenFrom(s, n, open) == OpenFrom(s, 0, inBlock)
  {
    UnblockedInStep(s, i, e, n);
    OpenFromUnfold(s, i, true, e, n);
  }

  /** The inner loop's exit inside a block comment that does not close. */
  lemma UnblockedInBlockEnd(s: string, i: nat, pieces: seq<string>, inBlock: bool)
    requires i <= |s| && Find(s, "*/", i) == -1
    requires pieces + Unblocked(s, i, true) == Unblocked(s, 0, inBlock)
    requires OpenFrom(s, i, true) == OpenFrom(s, 0, inBlock)
    ensures pieces == Unblocked(s, 0, inBlock) && true == OpenFrom(s, 0, inBlock)
  {
    UnblockedInStep(s, i, -1, 1);
    OpenFromUnfold(s, i, true, -1, 1);
    assert pieces + [] == pieces;
  }

  /** The inner loop's exit outside a block comment, with no opener left on the line. */
  lemma UnblockedOutsideEnd(s: string, i: nat, piece: string, pieces: seq<string>, inBlock: bool)
    requires i <= |s| && Find(s, "/*", i) == -1 && piece == s[i..|s|]
    requires pieces + Unblocked(s, i, false) == Unblocked(s, 0, inBlock)
    requires OpenFrom(s, i, false) == OpenFrom(s, 0, inBlock)
    ensures pieces + [piece] == Unblocked(s, 0, inBlock) && false == OpenFrom(s, 0, inBlock)
  {
    assert piece == s[i..];
    UnblockedOutStep(s, i, -1, 1, piece);
    OpenFromUnfold(s, i, false, -1, 1);
  }

  /** The inner loop's step at a block-comment opener at `st`, keeping `piece`. */
  lemma UnblockedOpen(s: string, i: nat, st: int, n: int, open: bool, piece: string, pieces: seq<string>,
                       extended: seq<string>, inBlock: bool)
    requires i <= |s| && st == Find(s, "/*", i) && st != -1 && n == st + 2 && open && piece == s[i..st]
    requires extended == pieces + [piece]
    requires pieces + Unblocked(s, i, false) == Unblocked(s, 0, inBlock)
    requires OpenFrom(s, i, false) == OpenFrom(s, 0, inBlock)
    ensures i < n <= |s|
    ensures extended + Unblocked(s, n, open) == Unblocked(s, 0, inBlock)
    ensures OpenFrom(s, n, open) == OpenFrom(s, 0, inBlock)
  {
    UnblockedOutStep(s, i, st, n, piece);
    OpenFromUnfold(s, i, false, st, n);
    assert pieces + ([piece] + Unblocked(s, n, true)) == extended + Unblocked(s, n, true);
  }

  /** One iteration of strip_comments' loop over lines: the uncommented line and the block state after it. */
  method UncommentOne(s: string, inBlock: bool) returns (u: string, open: bool)
    ensures u == UncommentLine(s, inBlock) && open == OpenAfter(s, inBlock)
  {
    var pieces;
    pieces, open := UnblockLine(s, inBlock);
    var unblocked := Join(pieces, " ");
    var cut := Find(unblocked, "//", 0);
    u := if cut == -1 then unblocked else unblocked[..cut];
    if EndsWith(s, "\n") && !EndsWith(u, "\n") {
      u := u + "\n";
    }
  }

  /** The loop of strip_comments over the lines of a file. */
  method UncommentAll(lines: seq<string>) returns (out: seq<string>)
    ensures out == UncommentLines(lines, false)
  {
    var inBlock := false;
    out := [];
    for k := 0 to |lines|
      invariant out == UncommentLines(lines[..k], false)
      invariant inBlock == OpenAfterLines(lines[..k], false)
    {
      var u, open0 := "", inBlock;
      u, inBlock := UncommentOne(lines[k], inBlock);
      UncommentLinesStep(lines, k, out, open0, u, inBlock);
      out := out + [u];
    }
    assert lines[..|lines|] == lines;
  }

  /** One more line of UncommentAll's loop extends its output and block state. */
  lemma UncommentLinesStep(lines: seq<string>, k: nat, out: seq<string>, inBlock: bool, u: string, open: bool)
    requires k < |lines|
    requires out == UncommentLines(lines[..k], false) && inBlock == OpenAfterLines(lines[..k], false)
    requires u == UncommentLine(lines[k], inBlock) && open == OpenAfter(lines[k], inBlock)
    ensures out + [u] == UncommentLines(lines[..k + 1], false) && open == OpenAfterLines(lines[..k + 1], false)
  {
    UncommentLinesSnoc(lines[..k], lines[k], false);
    assert lines[..k + 1] == lines[..k] + [lines[k]];
  }

  // ---------------------------------------------------------------------
  // strip_comments as intended

  /**
   * The pieces of `s[i..]` outside comments as C++ reads them: outside a
   * block comment, a "//" before the next block-comment opener ends the
   * line, so an opener inside a line comment opens nothing.
   */
  function UnblockedCorrected(s: string, i: nat, inBlock: bool): seq<string>
    requires i <= |s|
    decreases |s| - i
  {
    if inBlock then
      var e := Find(s, "*/", i);
      if e == -1 then [] else UnblockedCorrected(s, e + 2, false)
    else
      var st := Find(s, "/*", i);
      var lc := Find(s, "//", i);
      if lc != -1 && (st == -1 || lc < st) then [s[i..lc]]
      else if st == -1 then [s[i..]] else [s[i..st]] + UnblockedCorrected(s, st + 2, true)
  }

  /** Whether a block comment is open at the end of `s`, as C++ reads it. */
  function OpenFromCorrected(s: string, i: nat, inBlock: bool): bool
    requires i <= |s|
    decreases |s| - i
  {
    if inBlock then
      var e := Find(s, "*/", i);
      if e == -1 then true else OpenFromCorrected(s, e + 2, false)
    else
      var st := Find(s, "/*", i);
      var lc := Find(s, "//", i);
      if lc != -1 && (st == -1 || lc < st) then false
      else if st == -1 then false else OpenFromCorrected(s, st + 2, true)
  }

  /** One line of strip_comments as intended. */
  function UncommentLineCorrected(raw: string, inBlock: bool): string {
    var code := CutLineComment(Join(UnblockedCorrected(raw, 0, inBlock), " "));
    if EndsWith(raw, "\n") && !EndsWith(code, "\n") then code + "\n" else code
  }

  /** strip_comments as intended over consecutive lines. */
  function UncommentLinesCorrected(raws: seq<string>, inBlock: bool): seq<string>
    decreases |raws|
  {
    if |raws| == 0 then []
    else [UncommentLineCorrected(raws[0], inBlock)] + UncommentLinesCorrected(raws[1..], OpenFromCorrected(raws[0], 0, inBlock))
  }

  /** Whether a block comment is open after consecutive lines, as intended. */
  function OpenAfterLinesCorrected(raws: seq<string>, inBlock: bool): bool
    decreases |raws|
  {
    if |raws| == 0 then inBlock else OpenAfterLinesCorrected(raws[1..], OpenFromCorrected(raws[0], 0, inBlock))
  }

  /** stripped_hash over strip_comments as intended. */
  function StrippedHashCorrected(md5: string -> Digest, raws: seq<string>): int {
    IterHash(md5, HashedLines(UncommentLinesCorrected(raws, false)))
  }

  /** No "//" in s from i on. */
  lemma {:induction false} NoLineCommentFrom(s: string, i: nat)
    requires i <= |s| && !Contains(s, "//")
    ensures Find(s, "//", i) == -1
  {
    FindSpec(s, "//", 0);
    FindSpec(s, "//", i);
  }

  /** On text without "//" the correction changes nothing. */
  lemma {:induction false} UnblockedCorrectedPlain(s: string, i: nat, inBlock: bool)
    requires i <= |s| && !Contains(s, "//")
    ensures UnblockedCorrected(s, i, inBlock) == Unblocked(s, i, inBlock)
    ensures OpenFromCorrected(s, i, inBlock) == OpenFrom(s, i, inBlock)
    decreases |s| - i
  {
    NoLineCommentFrom(s, i);
    var f := Find(s, Delimiter(inBlock), i);
    if f == -1 {
      CorrectedPlainEnd(s, i, inBlock);
    } else {
      NoLineCommentFrom(s, f + 2);
      UnblockedCorrectedPlain(s, f + 2, !inBlock);
      CorrectedPlainCross(s, i, inBlock, f);
    }
  }

  /** With no "//" and no delimiter after `i`, both readings end alike. */
  lemma CorrectedPlainEnd(s: string, i: nat, inBlock: bool)
    requires i <= |s| && Find(s, "//", i) == -1 && Find(s, Delimiter(inBlock), i) == -1
    ensures UnblockedCorrected(s, i, inBlock) == Unblocked(s, i, inBlock)
    ensures OpenFromCorrected(s, i, inBlock) == OpenFrom(s, i, inBlock)
  {
  }

  /** With no "//" after `i`, both readings cross the same delimiter at `f`. */
  lemma CorrectedPlainCross(s: string, i: nat, inBlock: bool, f: nat)
    requires i <= |s| && Find(s, "//", i) == -1 && Find(s, Delimiter(inBlock), i) == f
    requires f + 2 <= |s|
    requires UnblockedCorrected(s, f + 2, !inBlock) == Unblocked(s, f + 2, !inBlock)
    requires OpenFromCorrected(s, f + 2, !inBlock) == OpenFrom(s, f + 2, !inBlock)
    ensures UnblockedCorrected(s, i, inBlock) == Unblocked(s, i, inBlock)
    ensures OpenFromCorrected(s, i, inBlock) == OpenFrom(s, i, inBlock)
  {
  }

  /** A file none of whose lines holds "//" is stripped alike as written
    * and as intended. */
  lemma {:induction false} UncommentLinesCorrectedPlain(raws: seq<string>, inBlock: bool)
    requires forall k :: 0 <= k < |raws| ==> !Contains(raws[k], "//")
    ensures UncommentLinesCorrected(raws, inBlock) == UncommentLines(raws, inBlock)
    ensures OpenAfterLinesCorrected(raws, inBlock) == OpenAfterLines(raws, inBlock)
    decreases |raws|
  {
    if |raws| > 0 {
      UnblockedCorrectedPlain(raws[0], 0, inBlock);
      UncommentLinesCorrectedPlain(raws[1..], OpenAfter(raws[0], inBlock));
    }
  }

  /** Lines can be uncommented as intended in two runs. */
  lemma {:induction false} UncommentLinesCorrectedAppend(a: seq<string>, b: seq<string>, inBlock: bool)
    ensures UncommentLinesCorrected(a + b, inBlock) ==
      UncommentLinesCorrected(a, inBlock) + UncommentLinesCorrected(b, OpenAfterLinesCorrected(a, inBlock))
    decreases |a|
  {
    if |a| == 0 {
      assert a + b == b;
    } else {
      var r, rest := a[0], a[1..];
      var open := OpenFromCorrected(r, 0, inBlock);
      assert a == [r] + rest && a + b == [r] + (rest + b);
      UncommentLinesCorrectedCons(r, rest + b, inBlock);
      UncommentLinesCorrectedCons(r, rest, inBlock);
      UncommentLinesCorrectedAppend(rest, b, open);
      SeqAssoc([UncommentLineCorrected(r, inBlock)], UncommentLinesCorrected(rest, open),
        UncommentLinesCorrected(b, OpenAfterLinesCorrected(rest, open)));
    }
  }

  /** The hashed strings, as intended, of a file split around one line. */
  lemma {:induction false} HashedAroundCorrected(a: seq<string>, r: string, b: seq<string>)
    ensures var open := OpenAfterLinesCorrected(a, false);
            HashedLines(UncommentLinesCorrected(a + [r] + b, false))
              == HashedLines(UncommentLinesCorrected(a, false)) + HashedLine(UncommentLineCorrected(r, open))
                 + HashedLines(UncommentLinesCorrected(b, OpenFromCorrected(r, 0, open)))
  {
    var open := OpenAfterLinesCorrected(a, false);
    UncommentAroundCorrected(a, r, b);
    HashedLinesAround(UncommentLinesCorrected(a, false), UncommentLineCorrected(r, open),
                      UncommentLinesCorrected(b, OpenFromCorrected(r, 0, open)));
  }

  /** The uncommented lines, as intended, of a file split around one line. */
  lemma {:induction false} UncommentAroundCorrected(a: seq<string>, r: string, b: seq<string>)
    ensures var open := OpenAfterLinesCorrected(a, false);
            UncommentLinesCorrected(a + [r] + b, false)
              == UncommentLinesCorrected(a, false) + [UncommentLineCorrected(r, open)]
                 + UncommentLinesCorrected(b, OpenFromCorrected(r, 0, open))
  {
    var open := OpenAfterLinesCorrected(a, false);
    var ua, u, ub := UncommentLinesCorrected(a, false), UncommentLineCorrected(r, open),
                     UncommentLinesCorrected(b, OpenFromCorrected(r, 0, open));
    assert a + [r] + b == a + ([r] + b);
    UncommentLinesCorrectedAppend(a, [r] + b, false);
    UncommentLinesCorrectedCons(r, b, open);
    SeqAssoc(ua, [u], ub);
  }

  lemma {:induction false} UncommentLinesCorrectedCons(r: string, b: seq<string>, inBlock: bool)
    ensures UncommentLinesCorrected([r] + b, inBlock) ==
      [UncommentLineCorrected(r, inBlock)] + UncommentLinesCorrected(b, OpenFromCorrected(r, 0, inBlock))
  {
    assert ([r] + b)[0] == r && ([r] + b)[1..] == b;
  }

  /**
   * As intended, a line ending in a line comment, read outside a block
   * comment, loses the whole comment whatever it holds, openers included,
   * and leaves no block comment open.
   */
  lemma {:induction false} LineCommentCorrected(code: string, t: string)
    requires !Contains(code, "/*")
    ensures UncommentLineCorrected(code + "//" + t + "\n", false) == UncommentLineCorrected(code + "//\n", false)
    ensures !OpenFromCorrected(code + "//" + t + "\n", 0, false)
  {
    LineCommentCut(code, t + "\n");
    LineCommentCut(code, "\n");
    assert code + "//" + "\n" == code + "//\n";
    var r1, r2 := code + "//" + (t + "\n"), code + "//" + "\n";
    assert code + "//" + t + "\n" == r1;
    assert EndsWith(r1, "\n") && EndsWith(r2, "\n");
    var c := Find(code + "//", "//", 0);
    assert r1[0..c] == r2[0..c];
  }

  /** Outside a block comment, a line code + "//" + rest is cut before the
    * first "//" as intended, and opens nothing. */
  lemma {:induction false} LineCommentCut(code: string, rest: string)
    requires !Contains(code, "/*")
    ensures var r := code + "//" + rest;
      var c := Find(code + "//", "//", 0);
      0 <= c <= |code| && UnblockedCorrected(r, 0, false) == [r[0..c]] && !OpenFromCorrected(r, 0, false)
  {
    var r := code + "//" + rest;
    var c := FindLineComment(code, rest);
    ContainsIff(code, "/*");
    forall j | 0 <= j <= c
      ensures !OccursAt(r, "/*", j)
    {
      if j + 2 <= |code| {
        assert r[j..j + 2] == code[j..j + 2];
        assert !OccursAt(code, "/*", j);
      } else {
        assert r[j + 1] == '/';
      }
    }
    FindSpec(r, "/*", 0);
    FindSpec(r, "//", 0);
  }

  /**
   * As intended, editing the text of a line comment, whatever it holds,
   * leaves the stripped hash of a file unchanged, as long as the code
   * before it opens no block comment and the line starts outside one.
   */
  lemma {:induction false} LineCommentEditCorrected(md5: string -> Digest, a: seq<string>, code: string, t1: string, t2: string,
                                                    b: seq<string>)
    requires !OpenAfterLinesCorrected(a, false) && !Contains(code, "/*")
    ensures StrippedHashCorrected(md5, a + [code + "//" + t1 + "\n"] + b) ==
            StrippedHashCorrected(md5, a + [code + "//" + t2 + "\n"] + b)
  {
    var r1, r2 := code + "//" + t1 + "\n", code + "//" + t2 + "\n";
    LineCommentCorrected(code, t1);
    LineCommentCorrected(code, t2);
    HashedAroundCorrected(a, r1, b);
    HashedAroundCorrected(a, r2, b);
  }

  // ---------------------------------------------------------------------
  // The stripped form of a file

  /** Line.stripped of each uncommented line. */
  function StrippedAll(us: seq<string>): (ss: seq<string>)
    ensures |ss| == |us| && forall k :: 0 <= k < |ss| ==> ss[k] == Stripped(us[k])
  {
    if |us| == 0 then [] else [Stripped(us[0])] + StrippedAll(us[1..])
  }

  /** The STRIPPED form of a file's lines: uncommented, then stripped. */
  function StrippedLines(raws: seq<string>): seq<string> {
    StrippedAll(UncommentLines(raws, false))
  }

  /** strip_comments keeps one line per raw line, and keeps a final '\n'. */
  lemma {:induction false} UncommentLinesNewline(raws: seq<string>, inBlock: bool)
    ensures |UncommentLines(raws, inBlock)| == |raws|
    ensures forall k :: 0 <= k < |raws| && EndsWith(raws[k], "\n") ==>
      EndsWith(UncommentLines(raws, inBlock)[k], "\n")
    decreases |raws|
  {
    if |raws| > 0 {
      var rest := raws[1..];
      var b := OpenAfter(raws[0], inBlock);
      UncommentLinesNewline(rest, b);
      var us := UncommentLines(raws, inBlock);
      assert us == [UncommentLine(raws[0], inBlock)] + UncommentLines(rest, b);
      forall k | 0 <= k < |raws| && EndsWith(raws[k], "\n")
        ensures EndsWith(us[k], "\n")
      {
        if k == 0 {
          UncommentLineNewline(raws[0], inBlock);
        } else {
          assert raws[k] == rest[k - 1];
        }
      }
    }
  }

  lemma UncommentLineNewline(raw: string, inBlock: bool)
    requires EndsWith(raw, "\n")
    ensures EndsWith(UncommentLine(raw, inBlock), "\n")
  {
    var code := CutLineComment(Join(Unblocked(raw, 0, inBlock), " "));
    if !EndsWith(code, "\n") {
      assert (code + "\n")[|code|..] == "\n";
    }
  }

  // ---------------------------------------------------------------------
  // SourceContent

  /** The lines of one source file and the forms derived from them. */
  class SourceContent {
    const lines: seq<string>              // Line.raw of each line, as readlines() returns them
    const md5: string -> Digest           // the digest hashlib.md5 computes
    var uncommented: seq<string>          // Line.uncommented of each line, once strip_comments ran
    var strippedComments: bool            // _stripped_comments
    var rawHash: Option<int>              // _raw_hash, the memoised stripped_hash

    ghost predicate Valid()
      reads this
    {
      (strippedComments ==> uncommented == UncommentLines(lines, false))
      && (rawHash.Some? ==> strippedComments && rawHash.value == StrippedHashOf(md5, lines))
    }

    /** SourceContent built from the text of a file. */
    constructor (text: string, md5: string -> Digest)
      ensures Valid()
      ensures lines == ReadLines(text) && this.md5 == md5
      ensures !strippedComments && rawHash == None
    {
      lines := ReadLines(text);
      this.md5 := md5;
      uncommented := [];
      strippedComments := false;
      rawHash := None;
    }

    /** strip_comments: sets every line's uncommented form; a second call is a ValueError. */
    method StripComments() returns (r: Result<()>)
      requires Valid()
      modifies this
      ensures Valid()
      ensures old(strippedComments) ==> r == Err(ValueError) && unchanged(this)
      ensures !old(strippedComments) ==> r.Ok? && strippedComments && rawHash == old(rawHash)
      ensures uncommented == UncommentLines(lines, false)
    {
      if strippedComments {
        return Err(ValueError);
      }
      var out := UncommentAll(lines);
      uncommented := out;
      strippedComments := true;
      return Ok(());
    }

    /** stripped_hash: uncomments the lines if needed, then hashes them once and remembers the value. */
    method StrippedHash() returns (h: int)
      requires Valid()
      modifies this
      ensures Valid()
      ensures h == StrippedHashOf(md5, lines)
      ensures strippedComments && rawHash == Some(h)
    {
      if rawHash.None? {
        if !strippedComments {
          var _ := StripComments();
        }
        rawHash := Some(IterHash(md5, HashedLines(uncommented)));
      }
      h := rawHash.value;
    }
  }
}
