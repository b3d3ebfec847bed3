// parse_tags: the ZEN(...) tags written in the line comment of a raw
// source line, e.g. `int x;  // ZEN(shallow, fast)`.
module Tags {
  import opened Text

  /** Index of the first `c` in `s`, or |s| when there is none. */
  function IndexOf(s: string, c: char): (i: nat)
    ensures i <= |s| && (i == |s| || s[i] == c)
    ensures forall k :: 0 <= k < i ==> s[k] != c
  {
    if |s| == 0 || s[0] == c then 0 else 1 + IndexOf(s[1..], c)
  }

  /** str.split(sep) for a one-character separator: the pieces between
    * separators, empty pieces included. */
  function SplitOn(s: string, sep: char): (ps: seq<string>)
    ensures |ps| > 0
    decreases |s|
  {
    var i := IndexOf(s, sep);
    if i == |s| then [s] else [s[..i]] + SplitOn(s[i + 1..], sep)
  }

  /** The first index at or after `i` holding a parenthesis, or |s|. */
  function ParenAt(s: string, i: nat): (k: nat)
    requires i <= |s|
    ensures i <= k <= |s| && (k == |s| || s[k] == '(' || s[k] == ')')
    ensures forall j :: i <= j < k ==> s[j] != '(' && s[j] != ')'
    decreases |s| - i
  {
    if i == |s| || s[i] == '(' || s[i] == ')' then i else ParenAt(s, i + 1)
  }

  /** re.findall(r'ZEN\([^()]*\)', s[i:]), each match m given as m[4:-1]:
    * at each index, "ZEN(" then text without parentheses then ')' is a
    * match and the search goes on after it; otherwise it goes on at the
    * next index. */
  function ZenBodies(s: string, i: nat): seq<string>
    requires i <= |s|
    decreases |s| - i
  {
    if i + 4 > |s| then []
    else if s[i..i + 4] == "ZEN(" then
      var k := ParenAt(s, i + 4);
      if k < |s| && s[k] == ')' then [s[i + 4..k]] + ZenBodies(s, k + 1)
      else ZenBodies(s, i + 1)
    else ZenBodies(s, i + 1)
  }

  /** {tag.strip() for tag in pieces if tag.strip()} */
  function PieceTags(ps: seq<string>): set<string> {
    if |ps| == 0 then {}
    else (if Strip(ps[0]) != "" then {Strip(ps[0])} else {}) + PieceTags(ps[1..])
  }

  /** The tags of each match body, split on ',', united. */
  function BodyTags(bodies: seq<string>): set<string> {
    if |bodies| == 0 then {} else PieceTags(SplitOn(bodies[0], ',')) + BodyTags(bodies[1..])
  }

  /** parse_tags: no tags unless the line holds both "//" and "ZEN(";
    * otherwise the tags of the matches in the text after the first "//". */
  function ParseTags(s: string): set<string> {
    if !Contains(s, "//") || !Contains(s, "ZEN(") then {}
    else BodyTags(ZenBodies(s[Find(s, "//", 0) + 2..], 0))
  }

  // ---------------------------------------------------------------------
  // What a tag looks like

  /** A tag as parse_tags can return it: not empty, no whitespace at either
    * end, and no comma or parenthesis in it. */
  predicate CleanTag(t: string) {
    |t| > 0 && NotSpace(t[0]) && NotSpace(t[|t| - 1]) && ',' !in t && '(' !in t && ')' !in t
  }

  /** The pieces of str.split hold no separator and only characters of the
    * text split. */
  lemma {:induction false} SplitOnPieces(s: string, sep: char)
    ensures forall p :: p in SplitOn(s, sep) ==> sep !in p && forall c :: c in p ==> c in s
    decreases |s|
  {
    var i := IndexOf(s, sep);
    if i < |s| {
      SplitOnPieces(s[i + 1..], sep);
    }
  }

  lemma StripInside(p: string)
    ensures forall c :: c in Strip(p) ==> c in p
  {
  }

  lemma {:induction false} PieceTagsClean(ps: seq<string>)
    requires forall p :: p in ps ==> ',' !in p && '(' !in p && ')' !in p
    ensures forall t :: t in PieceTags(ps) ==> CleanTag(t)
  {
    if |ps| > 0 {
      StripInside(ps[0]);
      PieceTagsClean(ps[1..]);
    }
  }

  lemma {:induction false} BodyTagsClean(bodies: seq<string>)
    requires forall b :: b in bodies ==> '(' !in b && ')' !in b
    ensures forall t :: t in BodyTags(bodies) ==> CleanTag(t)
  {
    if |bodies| > 0 {
      SplitOnPieces(bodies[0], ',');
      PieceTagsClean(SplitOn(bodies[0], ','));
      BodyTagsClean(bodies[1..]);
    }
  }

  lemma {:induction false} ZenBodiesClean(s: string, i: nat)
    requires i <= |s|
    ensures forall b :: b in ZenBodies(s, i) ==> '(' !in b && ')' !in b
    decreases |s| - i
  {
    if i + 4 <= |s| {
      if s[i..i + 4] == "ZEN(" {
        var k := ParenAt(s, i + 4);
        if k < |s| && s[k] == ')' {
          ZenBodiesClean(s, k + 1);
          var b := s[i + 4..k];
          assert forall j :: 0 <= j < |b| ==> b[j] == s[i + 4 + j];
        } else {
          ZenBodiesClean(s, i + 1);
        }
      } else {
        ZenBodiesClean(s, i + 1);
      }
    }
  }

  /** Every tag parse_tags returns is clean. */
  lemma ParsedTagsClean(s: string)
    ensures forall t :: t in ParseTags(s) ==> CleanTag(t)
  {
    if Contains(s, "//") && Contains(s, "ZEN(") {
      var comment := s[Find(s, "//", 0) + 2..];
      ZenBodiesClean(comment, 0);
      BodyTagsClean(ZenBodies(comment, 0));
    }
  }

  // ---------------------------------------------------------------------
  // Writing tags and reading them back

  /** The comment "// ZEN(t1, t2, ...)" that tags a line with ts. */
  function TagComment(ts: seq<string>): string {
    "// ZEN(" + Join(ts, ", ") + ")"
  }

  lemma {:induction false} SplitJoinTags(ts: seq<string>)
    requires |ts| > 0 && forall k :: 0 <= k < |ts| ==> CleanTag(ts[k])
    ensures PieceTags(SplitOn(Join(ts, ", "), ',')) == set t | t in ts
  {
    var t := ts[0];
    ElementsCons(ts);
    if |ts| == 1 {
      assert IndexOf(t, ',') == |t|;
      PieceTagsCons(t, []);
    } else {
      var rest := Join(ts[1..], ", ");
      SplitFirst(t, rest);
      SplitJoinTags(ts[1..]);
      SpacedPieces(rest);
      PieceTagsCons(t, SplitOn(" " + rest, ','));
    }
  }

  /** The elements of a sequence: its first and those of the rest. */
  lemma ElementsCons(ts: seq<string>)
    requires |ts| > 0
    ensures (set x | x in ts) == {ts[0]} + (set x | x in ts[1..])
  {
  }

  /** A clean tag as the first piece adds itself. */
  lemma PieceTagsCons(t: string, more: seq<string>)
    requires CleanTag(t)
    ensures PieceTags([t] + more) == {t} + PieceTags(more)
  {
    var ps := [t] + more;
    assert ps[0] == t && ps[1..] == more;
    StripClean(t);
    assert Strip(ps[0]) == t;
  }

  /** Splitting "t, rest" on ',' cuts after t when t holds no comma. */
  lemma SplitFirst(t: string, rest: string)
    requires ',' !in t
    ensures SplitOn(t + ", " + rest, ',') == [t] + SplitOn(" " + rest, ',')
  {
    var s := t + ", " + rest;
    assert s[|t|] == ',';
    assert forall k :: 0 <= k < |t| ==> s[k] == t[k];
    FirstIndex(s, ',', |t|);
    assert s[..|t|] == t;
    assert s[|t| + 1..] == " " + rest;
    SplitOnAt(s, ',', |t|, t, " " + rest);
  }

  /** The first `c` of `s` is at `i` when `s[i]` is one and nothing before it is. */
  lemma FirstIndex(s: string, c: char, i: nat)
    requires i < |s| && s[i] == c && forall k :: 0 <= k < i ==> s[k] != c
    ensures IndexOf(s, c) == i
  {
  }

  /** str.split at a separator found at `i`: the piece before it, then the pieces after it. */
  lemma SplitOnAt(s: string, sep: char, i: nat, piece: string, after: string)
    requires i < |s| && IndexOf(s, sep) == i && piece == s[..i] && after == s[i + 1..]
    ensures SplitOn(s, sep) == [piece] + SplitOn(after, sep)
  {
  }

  /** A space before the text only lengthens the first piece by that space,
    * which str.strip() removes. */
  lemma SpacedPieces(rest: string)
    ensures PieceTags(SplitOn(" " + rest, ',')) == PieceTags(SplitOn(rest, ','))
  {
    var a := SplitOn(" " + rest, ',');
    var b := SplitOn(rest, ',');
    SpacedSplit(rest);
    StripSpaced(b[0]);
    SameStrippedHead(a, b);
  }

  lemma SpacedSplit(rest: string)
    ensures var a := SplitOn(" " + rest, ','); var b := SplitOn(rest, ',');
      |a| == |b| && a[0] == " " + b[0] && a[1..] == b[1..]
  {
    var s := " " + rest;
    assert s[1..] == rest;
    assert IndexOf(s, ',') == IndexOf(rest, ',') + 1;
  }

  lemma StripSpaced(x: string)
    ensures Strip(" " + x) == Strip(x)
  {
    assert (" " + x)[1..] == x;
  }

  lemma SameStrippedHead(a: seq<string>, b: seq<string>)
    requires |a| == |b| > 0 && Strip(a[0]) == Strip(b[0]) && a[1..] == b[1..]
    ensures PieceTags(a) == PieceTags(b)
  {
  }

  /** Tags written as a ZEN(...) comment are read back by parse_tags, as a
    * set. */
  lemma TagCommentRoundTrip(ts: seq<string>)
    requires |ts| > 0 && forall k :: 0 <= k < |ts| ==> CleanTag(ts[k])
    ensures ParseTags(TagComment(ts)) == set t | t in ts
  {
    var body := Join(ts, ", ");
    JoinNoParens(ts);
    CommentTags(body);
    SplitJoinTags(ts);
  }

  /** The tags of "// ZEN(body)": those of body's comma-separated pieces. */
  lemma CommentTags(body: string)
    requires forall j :: 0 <= j < |body| ==> body[j] != '(' && body[j] != ')'
    ensures ParseTags("// ZEN(" + body + ")") == PieceTags(SplitOn(body, ','))
  {
    var s := "// ZEN(" + body + ")";
    var c := " ZEN(" + body + ")";
    var tags := PieceTags(SplitOn(body, ','));
    assert ParseTags(s) == BodyTags(ZenBodies(c, 0)) by {
      CommentAfterSlashes(body);
      AfterFirstSlashes(s, c);
    }
    assert ZenBodies(c, 0) == [body] by {
      OneMatch(body);
    }
    assert BodyTags([body]) == tags + BodyTags([]);
  }

  /** parse_tags of a line that starts with "//" and holds "ZEN(": the tags
    * of the text after the "//". */
  lemma AfterFirstSlashes(s: string, c: string)
    ensures Contains(s, "//") && Contains(s, "ZEN(") && Find(s, "//", 0) == 0 && s[2..] == c ==>
      ParseTags(s) == BodyTags(ZenBodies(c, 0))
  {
  }

  /** The comment "// ZEN(body)" passes both tests of parse_tags, and what
    * follows its "//" is " ZEN(body)". */
  lemma CommentAfterSlashes(body: string)
    ensures var s := "// ZEN(" + body + ")";
      Contains(s, "//") && Contains(s, "ZEN(") && Find(s, "//", 0) == 0 && s[2..] == " ZEN(" + body + ")"
  {
    var s := "// ZEN(" + body + ")";
    assert OccursAt(s, "//", 0);
    assert OccursAt(s, "ZEN(", 3);
    ContainsIff(s, "//");
    ContainsIff(s, "ZEN(");
  }

  /** " ZEN(body)" holds exactly one match when body has no parenthesis. */
  lemma OneMatch(body: string)
    requires forall j :: 0 <= j < |body| ==> body[j] != '(' && body[j] != ')'
    ensures ZenBodies(" ZEN(" + body + ")", 0) == [body]
  {
    var c := " ZEN(" + body + ")";
    var k := 5 + |body|;
    MatchParts(body);
    ParenAtClear(c, 5, k);
    assert ZenBodies(c, 1) == [body] + ZenBodies(c, k + 1);
  }

  lemma MatchParts(body: string)
    requires forall j :: 0 <= j < |body| ==> body[j] != '(' && body[j] != ')'
    ensures var c := " ZEN(" + body + ")"; var k := 5 + |body|;
      |c| == k + 1 && c[k] == ')' && c[1..5] == "ZEN(" && c[0..4] != "ZEN(" && c[5..k] == body
      && forall j :: 5 <= j < k ==> c[j] != '(' && c[j] != ')'
  {
    var c := " ZEN(" + body + ")";
    assert c[0] == ' ';
    assert forall j :: 5 <= j < 5 + |body| ==> c[j] == body[j - 5];
  }

  /** The scan for a parenthesis stops at the first one. */
  lemma {:induction false} ParenAtClear(s: string, i: nat, k: nat)
    requires i <= k < |s| && (s[k] == '(' || s[k] == ')')
    requires forall j :: i <= j < k ==> s[j] != '(' && s[j] != ')'
    ensures ParenAt(s, i) == k
    decreases k - i
  {
    if i < k {
      ParenAtClear(s, i + 1, k);
    }
  }

  /** Joined clean tags hold no parenthesis. */
  lemma {:induction false} JoinNoParens(ts: seq<string>)
    requires forall k :: 0 <= k < |ts| ==> CleanTag(ts[k])
    ensures forall j :: 0 <= j < |Join(ts, ", ")| ==> Join(ts, ", ")[j] != '(' && Join(ts, ", ")[j] != ')'
  {
    if |ts| > 1 {
      JoinNoParens(ts[1..]);
      var r := Join(ts[1..], ", ");
      var s := ts[0] + ", " + r;
      forall j | 0 <= j < |s| ensures s[j] != '(' && s[j] != ')' {
        if j >= |ts[0]| + 2 {
          assert s[j] == r[j - |ts[0]| - 2];
        }
      }
    }
  }

  /** Only the text after the first "//" is searched: code before it
    * without a '/' changes nothing, so long as the comment holds "ZEN(". */
  lemma CodeBeforeCommentIgnored(code: string, comment: string)
    requires forall k :: 0 <= k < |code| ==> code[k] != '/'
    requires Contains(comment, "ZEN(")
    ensures ParseTags(code + "//" + comment) == ParseTags("//" + comment)
  {
    var s := code + "//" + comment;
    var t := "//" + comment;
    CommentAfter(code, comment);
    assert "" + "//" + comment == t;
    CommentAfter("", comment);
    ContainsAfter(code + "//", comment, "ZEN(");
    ContainsAfter("//", comment, "ZEN(");
  }

  /** The first "//" of code + "//" + comment, when the code has no '/',
    * is the one after the code. */
  lemma CommentAfter(code: string, comment: string)
    requires forall k :: 0 <= k < |code| ==> code[k] != '/'
    ensures var s := code + "//" + comment;
      Contains(s, "//") && Find(s, "//", 0) == |code| && s[|code| + 2..] == comment
  {
    var s := code + "//" + comment;
    FindSpec(s, "//", 0);
    assert OccursAt(s, "//", |code|);
    forall j | 0 <= j < |code| ensures !OccursAt(s, "//", j) {
      assert s[j] == code[j];
    }
    ContainsIff(s, "//");
  }

  /** A pattern found in a text is found in it after any prefix. */
  lemma ContainsAfter(p: string, s: string, pat: string)
    requires |pat| > 0 && Contains(s, pat)
    ensures Contains(p + s, pat)
  {
    ContainsIff(s, pat);
    var j :| OccursAt(s, pat, j);
    assert (p + s)[|p| + j..|p| + j + |pat|] == s[j..j + |pat|];
    assert OccursAt(p + s, pat, |p| + j);
    ContainsIff(p + s, pat);
  }
}
