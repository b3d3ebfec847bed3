// The Python string primitives zen is built on: str.find and `in`,
// startswith/endswith, str.split() with no separator, str.join,
// str.strip() and re.findall(r'[\w0-9]+', s).
module Text {

  /** str.isspace() for a single character. */
  predicate IsSpace(c: char) {
    c == ' ' || ('\t' <= c <= '\r') || ('\U{1c}' <= c <= '\U{1f}')
    || c == '\U{85}' || c == '\U{a0}' || c == '\U{1680}'
    || ('\U{2000}' <= c <= '\U{200a}') || c == '\U{2028}' || c == '\U{2029}'
    || c == '\U{202f}' || c == '\U{205f}' || c == '\U{3000}'
  }

  /** A character that str.split() keeps inside a word. */
  predicate NotSpace(c: char) { !IsSpace(c) }

  /** Membership in string.whitespace, i.e. ' \t\n\r\x0b\x0c'. */
  predicate IsAsciiSpace(c: char) { c == ' ' || '\t' <= c <= '\r' }

  /** A character matched by the token pattern [\w0-9] (ASCII reading). */
  predicate IsWordChar(c: char) {
    'a' <= c <= 'z' || 'A' <= c <= 'Z' || '0' <= c <= '9' || c == '_'
  }

  predicate StartsWith(s: string, p: string) {
    |p| <= |s| && s[..|p|] == p
  }

  predicate EndsWith(s: string, p: string) {
    |p| <= |s| && s[|s| - |p|..] == p
  }

  /** `pat` occurs in `s` starting at index `j`. */
  predicate OccursAt(s: string, pat: string, j: int) {
    0 <= j && j + |pat| <= |s| && s[j..j + |pat|] == pat
  }

  /** A two-character pattern occurs where its two characters do. */
  lemma OccursAtPair(s: string, pat: string, j: int)
    requires |pat| == 2
    ensures OccursAt(s, pat, j) <==> 0 <= j && j + 2 <= |s| && s[j] == pat[0] && s[j + 1] == pat[1]
  {
    if 0 <= j && j + 2 <= |s| && s[j] == pat[0] && s[j + 1] == pat[1] {
      assert s[j..j + 2] == pat;
    }
  }

  /** `pat` matches `s` character by character from index `from`. */
  predicate MatchesAt(s: string, pat: string, from: nat)
    requires from + |pat| <= |s|
  {
    forall m :: 0 <= m < |pat| ==> s[from + m] == pat[m]
  }

  /** Matching character by character is the same as the slice being the pattern. */
  lemma MatchesAtIff(s: string, pat: string, j: nat)
    requires j + |pat| <= |s|
    ensures MatchesAt(s, pat, j) <==> s[j..j + |pat|] == pat
  {
    if MatchesAt(s, pat, j) {
      assert forall m :: 0 <= m < |pat| ==> s[j..j + |pat|][m] == pat[m];
    }
  }

  /** str.find(pat, from) for a non-empty pattern: the first occurrence at or after `from`, or -1. */
  function Find(s: string, pat: string, from: nat): (r: int)
    requires |pat| > 0
    ensures r == -1 || (from <= r && r + |pat| <= |s|)
    decreases if from <= |s| then |s| - from else 0
  {
    if from + |pat| > |s| then -1
    else if MatchesAt(s, pat, from) then from
    else Find(s, pat, from + 1)
  }

  /** str.find finds an occurrence, and no occurrence lies between `from` and the one it finds. */
  lemma {:induction false} FindSpec(s: string, pat: string, from: nat)
    requires |pat| > 0
    ensures Find(s, pat, from) >= 0 ==> OccursAt(s, pat, Find(s, pat, from))
    ensures forall j :: from <= j && (Find(s, pat, from) == -1 || j < Find(s, pat, from)) ==> !OccursAt(s, pat, j)
    decreases if from <= |s| then |s| - from else 0
  {
    if from + |pat| <= |s| {
      MatchesAtIff(s, pat, from);
      if !MatchesAt(s, pat, from) {
        FindSpec(s, pat, from + 1);
      }
    }
  }

  /** Python's `pat in s` for a non-empty pattern. */
  predicate Contains(s: string, pat: string)
    requires |pat| > 0
  {
    Find(s, pat, 0) >= 0
  }

  lemma ContainsIff(s: string, pat: string)
    requires |pat| > 0
    ensures Contains(s, pat) <==> exists j :: OccursAt(s, pat, j)
  {
    FindSpec(s, pat, 0);
    if Contains(s, pat) {
      assert OccursAt(s, pat, Find(s, pat, 0));
    }
  }

  /** str.find from `from` finds an occurrence at `k` or one before it. */
  lemma {:induction false} FindSome(s: string, pat: string, from: nat, k: nat)
    requires |pat| > 0 && from <= k && OccursAt(s, pat, k)
    ensures from <= Find(s, pat, from) <= k
  {
    FindSpec(s, pat, from);
  }

  /** Text appended after an occurrence does not move what str.find finds. */
  lemma {:induction false} FindExtends(p: string, x: string, pat: string, from: nat)
    requires |pat| > 0 && Find(p, pat, from) >= 0
    ensures Find(p + x, pat, from) == Find(p, pat, from)
    decreases |p| - from
  {
    assert MatchesAt(p + x, pat, from) == MatchesAt(p, pat, from) by {
      assert forall i :: from <= i < from + |pat| ==> (p + x)[i] == p[i];
    }
    if !MatchesAt(p, pat, from) {
      FindExtends(p, x, pat, from + 1);
    }
  }

  /** Text prepended shifts what str.find finds by its length. */
  lemma {:induction false} FindShift(p: string, s: string, pat: string, k: nat)
    requires |pat| > 0
    ensures Find(p + s, pat, |p| + k) == if Find(s, pat, k) == -1 then -1 else |p| + Find(s, pat, k)
    decreases if k <= |s| then |s| - k else 0
  {
    if k + |pat| <= |s| {
      assert MatchesAt(p + s, pat, |p| + k) == MatchesAt(s, pat, k) by {
        assert forall i :: k <= i < k + |pat| ==> (p + s)[|p| + i] == s[i];
      }
      if !MatchesAt(s, pat, k) {
        FindShift(p, s, pat, k + 1);
      }
    }
  }

  /** What str.find finds from the start of s, it finds from |p| in p + s, shifted. */
  lemma {:induction false} FindShiftFound(p: string, s: string, pat: string, f: int)
    requires |pat| > 0 && Find(s, pat, 0) == f
    ensures Find(p + s, pat, |p|) == if f == -1 then -1 else |p| + f
  {
    FindShift(p, s, pat, 0);
  }

  /** An occurrence of `pat` in a prefix of `s` is an occurrence in `s`. */
  lemma ContainsPrefix(s: string, n: nat, pat: string)
    requires |pat| > 0 && n <= |s|
    requires Contains(s[..n], pat)
    ensures Contains(s, pat)
  {
    var j := Find(s[..n], pat, 0);
    FindSpec(s[..n], pat, 0);
    assert s[..n][j..j + |pat|] == s[j..j + |pat|];
    assert OccursAt(s, pat, j);
    ContainsIff(s, pat);
  }

  /** ' '.join(ws) and friends: the words separated by `sep`. */
  function Join(ws: seq<string>, sep: string): string {
    if |ws| == 0 then ""
    else if |ws| == 1 then ws[0]
    else ws[0] + sep + Join(ws[1..], sep)
  }

  /** Concatenation of strings, e.g. of the lines of a file. */
  function Concat(ls: seq<string>): string {
    if |ls| == 0 then "" else ls[0] + Concat(ls[1..])
  }

  /** The lines of a text split after each '\n': each line but the last is
    * non-empty and ends with '\n', and no line has a '\n' anywhere else. */
  predicate SplitAfterNewlines(ls: seq<string>) {
    (forall k :: 0 <= k < |ls| - 1 ==> |ls[k]| > 0) &&
    (forall k :: 0 <= k < |ls| - 1 ==> ls[k][|ls[k]| - 1] == '\n') &&
    (forall k, i :: 0 <= k < |ls| && 0 <= i < |ls[k]| - 1 ==> ls[k][i] != '\n')
  }

  /** Length of the longest prefix of `s` whose characters all satisfy `inRun`. */
  function RunLength(s: string, inRun: char -> bool): (n: nat)
    ensures n <= |s|
    ensures forall i :: 0 <= i < n ==> inRun(s[i])
    ensures n < |s| ==> !inRun(s[n])
  {
    if |s| == 0 || !inRun(s[0]) then 0 else 1 + RunLength(s[1..], inRun)
  }

  /** The maximal runs of characters satisfying `inRun`, left to right. */
  function Runs(s: string, inRun: char -> bool): (rs: seq<string>)
    ensures forall k :: 0 <= k < |rs| ==> |rs[k]| > 0
    ensures forall k, i :: 0 <= k < |rs| && 0 <= i < |rs[k]| ==> inRun(rs[k][i])
    decreases |s|
  {
    if |s| == 0 then []
    else if !inRun(s[0]) then Runs(s[1..], inRun)
    else
      var n := RunLength(s, inRun);
      [s[..n]] + Runs(s[n..], inRun)
  }

  /** str.split() with no separator: the maximal runs of non-whitespace. */
  function Split(s: string): seq<string> {
    Runs(s, NotSpace)
  }

  /** re.findall(r'[\w0-9]+', s): the maximal runs of word characters. */
  function Tokens(s: string): seq<string> {
    Runs(s, IsWordChar)
  }

  /** A run stops at the end of `a` at the latest when `b` cannot continue it. */
  lemma {:induction false} RunLengthAppend(a: string, b: string, inRun: char -> bool)
    requires RunLength(a, inRun) < |a| || |b| == 0 || !inRun(b[0])
    ensures RunLength(a + b, inRun) == RunLength(a, inRun)
    decreases |a|
  {
    if |a| == 0 {
      assert a + b == b;
    } else if inRun(a[0]) {
      assert (a + b)[1..] == a[1..] + b;
      RunLengthAppend(a[1..], b, inRun);
    }
  }

  /** Runs of characters never straddle a boundary that one side cannot continue. */
  lemma {:induction false} RunsAppend(a: string, b: string, inRun: char -> bool)
    requires |a| == 0 || |b| == 0 || !inRun(a[|a| - 1]) || !inRun(b[0])
    ensures Runs(a + b, inRun) == Runs(a, inRun) + Runs(b, inRun)
    decreases |a|
  {
    if |a| == 0 {
      assert a + b == b;
    } else if |b| == 0 {
      assert a + b == a;
    } else if !inRun(a[0]) {
      assert (a + b)[1..] == a[1..] + b;
      RunsAppend(a[1..], b, inRun);
    } else {
      var n := RunLength(a, inRun);
      if n == |a| {
        assert !inRun(b[0]);
      }
      RunLengthAppend(a, b, inRun);
      assert (a + b)[..n] == a[..n];
      assert (a + b)[n..] == a[n..] + b;
      RunsAppend(a[n..], b, inRun);
    }
  }

  /** Text with no run characters has no runs. */
  lemma {:induction false} RunsNone(s: string, inRun: char -> bool)
    requires forall i :: 0 <= i < |s| ==> !inRun(s[i])
    ensures Runs(s, inRun) == []
    decreases |s|
  {
    if |s| > 0 {
      RunsNone(s[1..], inRun);
    }
  }

  /** A run covers a text made only of run characters. */
  lemma {:induction false} RunLengthAll(w: string, inRun: char -> bool)
    requires forall i :: 0 <= i < |w| ==> inRun(w[i])
    ensures RunLength(w, inRun) == |w|
    decreases |w|
  {
    if |w| > 0 {
      RunLengthAll(w[1..], inRun);
    }
  }

  /** A word made only of run characters is a single run. */
  lemma RunsWhole(w: string, inRun: char -> bool)
    requires |w| > 0 && forall i :: 0 <= i < |w| ==> inRun(w[i])
    ensures Runs(w, inRun) == [w]
  {
    RunLengthAll(w, inRun);
    assert w[..|w|] == w;
    assert Runs(w[|w|..], inRun) == [];
  }

  /** Joining runs with a separator the runs cannot contain gives the runs back. */
  lemma {:induction false} RunsJoin(ws: seq<string>, sep: string, inRun: char -> bool)
    requires forall k :: 0 <= k < |ws| ==> |ws[k]| > 0
    requires forall k, i :: 0 <= k < |ws| && 0 <= i < |ws[k]| ==> inRun(ws[k][i])
    requires |sep| > 0 && forall i :: 0 <= i < |sep| ==> !inRun(sep[i])
    ensures Runs(Join(ws, sep), inRun) == ws
    decreases |ws|
  {
    if |ws| == 0 {
    } else if |ws| == 1 {
      RunsWhole(ws[0], inRun);
    } else {
      RunsJoin(ws[1..], sep, inRun);
      RunsWhole(ws[0], inRun);
      RunsNone(sep, inRun);
      RunsAppend(ws[0], sep, inRun);
      RunsAppend(ws[0] + sep, Join(ws[1..], sep), inRun);
      assert ws[0] + sep + Join(ws[1..], sep) == (ws[0] + sep) + Join(ws[1..], sep);
      assert [ws[0]] + ws[1..] == ws;
    }
  }

  /** str.split() undoes ' '.join() on words that str.split() could have produced. */
  lemma SplitJoin(ws: seq<string>)
    requires forall k :: 0 <= k < |ws| ==> |ws[k]| > 0
    requires forall k, i :: 0 <= k < |ws| && 0 <= i < |ws[k]| ==> NotSpace(ws[k][i])
    ensures Split(Join(ws, " ")) == ws
  {
    RunsJoin(ws, " ", NotSpace);
  }

  /** Every character of a join is a character of a word or of the separator. */
  lemma {:induction false} JoinChars(ws: seq<string>, sep: string, c: char)
    requires c in Join(ws, sep)
    ensures c in sep || exists k :: 0 <= k < |ws| && c in ws[k]
    decreases |ws|
  {
    if |ws| > 1 {
      var rest := Join(ws[1..], sep);
      assert Join(ws, sep) == ws[0] + sep + rest;
      if c in rest {
        JoinChars(ws[1..], sep, c);
        if !(c in sep) {
          var k :| 0 <= k < |ws[1..]| && c in ws[1..][k];
          assert c in ws[k + 1];
        }
      } else if !(c in sep) {
        assert c in ws[0];
      }
    }
  }

  /** A join of non-empty words starts with the first word's first character. */
  lemma JoinFirst(ws: seq<string>, sep: string)
    requires |ws| > 0 && |ws[0]| > 0
    ensures |Join(ws, sep)| > 0 && Join(ws, sep)[0] == ws[0][0]
  {
  }

  /** A join of non-empty words ends with the last word's last character. */
  lemma {:induction false} JoinLast(ws: seq<string>, sep: string)
    requires |ws| > 0 && |ws[|ws| - 1]| > 0
    ensures |Join(ws, sep)| > 0
    ensures Join(ws, sep)[|Join(ws, sep)| - 1] == ws[|ws| - 1][|ws[|ws| - 1]| - 1]
    decreases |ws|
  {
    if |ws| > 1 {
      JoinLast(ws[1..], sep);
    }
  }

  /** str.lstrip() with no argument. */
  function TrimLeft(s: string): (r: string)
    ensures |r| <= |s| && r == s[|s| - |r|..]
    ensures |r| == 0 || NotSpace(r[0])
    ensures forall i :: 0 <= i < |s| - |r| ==> IsSpace(s[i])
  {
    if |s| > 0 && IsSpace(s[0]) then TrimLeft(s[1..]) else s
  }

  /** str.rstrip() with no argument. */
  function TrimRight(s: string): (r: string)
    ensures |r| <= |s| && r == s[..|r|]
    ensures |r| == 0 || NotSpace(r[|r| - 1])
    ensures forall i :: |r| <= i < |s| ==> IsSpace(s[i])
  {
    if |s| > 0 && IsSpace(s[|s| - 1]) then TrimRight(s[..|s| - 1]) else s
  }

  /** str.strip() with no argument. */
  function Strip(s: string): string {
    TrimRight(TrimLeft(s))
  }

  /** Text with no whitespace at either end is left alone by str.strip(). */
  lemma StripClean(s: string)
    requires |s| == 0 || (NotSpace(s[0]) && NotSpace(s[|s| - 1]))
    ensures Strip(s) == s
  {
  }
}
