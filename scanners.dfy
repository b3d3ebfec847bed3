/*
 * The bracket and scope scanners: Chunk.find_quote_end, Chunk.find_pair,
 * find_in_scope and scope_tokens.  Each walks a chunk one position at a
 * time; each is proved equal to a recursive scan over flat offsets into
 * the file's stripped text `t`, bounded by the chunk's end offset `hi`,
 * and the scans are then characterised independently.
 */
module Scanners {
  import opened Errors
  import opened Text
  import opened Position
  import opened Chunks

  /** The keys of BRACKETS. */
  predicate IsOpen(ch: char) { ch == '(' || ch == '{' || ch == '[' || ch == '<' }

  /** The value BRACKETS gives an opening bracket. */
  function CloseOf(ch: char): (r: char)
    requires IsOpen(ch)
    ensures r != ch && !IsOpen(r) && !IsQuote(r)
  {
    match ch
    case '(' => ')'
    case '{' => '}'
    case '[' => ']'
    case _ => '>'
  }

  predicate IsQuote(ch: char) { ch == '\'' || ch == '"' }

  /** An offset result as a position result. */
  function AsPos(ls: seq<string>, r: Result<nat>): Result<Pos>
    requires |ls| > 0 && (r.Ok? ==> r.value <= Total(ls))
  {
    match r
    case Ok(k) => Ok(PosAt(ls, k))
    case Err(e) => Err(e)
  }

  function AsOptPos(ls: seq<string>, r: Result<Option<nat>>): Result<Option<Pos>>
    requires |ls| > 0 && (r.Ok? && r.value.Some? ==> r.value.value <= Total(ls))
  {
    match r
    case Ok(None) => Ok(None)
    case Ok(Some(k)) => Ok(Some(PosAt(ls, k)))
    case Err(e) => Err(e)
  }

  // ---------------------------------------------------------------------
  // find_quote_end

  /** The scan of find_quote_end from offset j for the quote char q: a
    * backslash escapes the next character; an unescaped '\n' is a
    * ValueError, an unescaped q ends the string; reaching the chunk's end
    * yields None. */
  function QuoteScan(t: string, hi: nat, j: nat, q: char, escaped: bool): (r: Result<Option<nat>>)
    requires hi <= |t|
    ensures r.Ok? && r.value.Some? ==> j <= r.value.value < hi && t[r.value.value] == q
    ensures r.Err? ==> r.error == ValueError
    decreases hi - j
  {
    if j >= hi then Ok(None)
    else if escaped then QuoteScan(t, hi, j + 1, q, false)
    else if t[j] == '\\' then QuoteScan(t, hi, j + 1, q, true)
    else if t[j] == '\n' then Err(ValueError)
    else if t[j] == q then Ok(Some(j))
    else QuoteScan(t, hi, j + 1, q, false)
  }

  /** Chunk.find_quote_end(pos) as offsets: IndexError off the chunk,
    * ValueError unless a quote char is there, then the scan after it. */
  function QuoteEnd(ls: seq<string>, c: Chunk, p: Pos): (r: Result<Option<nat>>)
    requires Valid(ls, c) && Normal(ls, p)
    ensures r.Ok? && r.value.Some? ==> Offset(ls, p) < r.value.value < Hi(ls, c)
  {
    var ch := CharAtPos(ls, c, p);
    if ch.Err? then Err(IndexError)
    else if !IsQuote(ch.value) then Err(ValueError)
    else QuoteScan(Flat(ls), Hi(ls, c), Offset(ls, p) + 1, ch.value, false)
  }

  /** Without backslashes the scan stops at the first q or '\n': it finds
    * the first q when no '\n' comes before it, fails on a '\n' that comes
    * first, and yields None when neither occurs. */
  lemma {:induction false} QuoteScanPlain(t: string, hi: nat, j: nat, q: char)
    requires hi <= |t| && q != '\n'
    requires forall m :: j <= m < hi ==> t[m] != '\\'
    ensures var r := QuoteScan(t, hi, j, q, false);
      (r.Ok? && r.value.Some? ==>
         forall m :: j <= m < r.value.value ==> t[m] != q && t[m] != '\n') &&
      (r.Ok? && r.value.None? ==>
         forall m :: j <= m < hi ==> t[m] != q && t[m] != '\n') &&
      (r.Err? ==> exists e :: FirstNewline(t, j, e, q))
    decreases hi - j
  {
    if j < hi {
      if t[j] == '\n' {
        assert FirstNewline(t, j, j, q);
      } else if t[j] != q {
        QuoteScanPlain(t, hi, j + 1, q);
        var r := QuoteScan(t, hi, j + 1, q, false);
        if r.Err? {
          var e :| FirstNewline(t, j + 1, e, q);
          assert FirstNewline(t, j, e, q);
        }
      }
    }
  }

  /** Offset e holds a '\n', and no '\n' or q lies between j and e. */
  predicate FirstNewline(t: string, j: nat, e: nat, q: char) {
    j <= e < |t| && t[e] == '\n' && forall m :: j <= m < e ==> t[m] != q && t[m] != '\n'
  }

  /** Chunk.find_quote_end: read the quote char, then walk the sub-chunk
    * after it, tracking whether the previous character escapes this one. */
  method FindQuoteEnd(ls: seq<string>, c: Chunk, p: Pos) returns (r: Result<Option<Pos>>)
    requires Valid(ls, c) && Normal(ls, p)
    ensures r == AsOptPos(ls, QuoteEnd(ls, c, p))
  {
    var ch := CharAtPos(ls, c, p);
    if ch.Err? {
      return Err(IndexError);
    }
    var q := ch.value;
    if !IsQuote(q) {
      return Err(ValueError);
    }
    ghost var o := Offset(ls, p);
    var next := Add(ls, p, 1);
    assert next == Ok(PosAt(ls, o + 1));
    PosAtSpec(ls, o + 1);
    var sub := Slice(ls, c, At(next.value), Default);
    assert sub == Ok(Span(ls, o + 1, Hi(ls, c)));
    var s := Str(ls, sub.value);
    r := QuoteLoop(ls, p, s, q, Hi(ls, c));
  }

  /** The loop of find_quote_end over the characters `s` that follow the
    * opening quote, up to the chunk's end offset `hi`. */
  method QuoteLoop(ls: seq<string>, p: Pos, s: string, q: char, ghost hi: nat) returns (r: Result<Option<Pos>>)
    requires WellFormed(ls) && Normal(ls, p) && Offset(ls, p) < hi <= Total(ls)
    requires s == Flat(ls)[Offset(ls, p) + 1..hi]
    ensures r == AsOptPos(ls, QuoteScan(Flat(ls), hi, Offset(ls, p) + 1, q, false))
  {
    ghost var t, o := Flat(ls), Offset(ls, p);
    var escaped := false;
    for i := 0 to |s|
      invariant QuoteScan(t, hi, o + 1 + i, q, escaped) == QuoteScan(t, hi, o + 1, q, false)
    {
      assert s[i] == t[o + 1 + i];
      if escaped {
        escaped := false;
      } else if s[i] == '\\' {
        escaped := true;
      } else if s[i] == '\n' {
        return Err(ValueError);
      } else if s[i] == q {
        var e := Add(ls, p, i + 1);
        return Ok(Some(e.value));
      }
    }
    return Ok(None);
  }

  // ---------------------------------------------------------------------
  // Stepping past a character

  /** Where the scans of find_pair, find_in_scope and scope_tokens go on
    * after the character `ch` at offset j, when it is not a bracket they
    * handle themselves: after the closing quote of a quoted string (with
    * find_quote_end's ValueError, and the TypeError that `None + 1`
    * raises when the string does not end), else at the next offset. */
  function Advance(t: string, hi: nat, j: nat, ch: char): (r: Result<nat>)
    requires j < hi <= |t|
    ensures r.Ok? ==> j < r.value <= hi
  {
    if IsQuote(ch) then
      match QuoteScan(t, hi, j + 1, ch, false)
      case Err(e) => Err(e)
      case Ok(None) => Err(TypeError)
      case Ok(Some(e)) => Ok(e + 1)
    else Ok(j + 1)
  }

  /** The shared tail of the scanning loops: for a quote char
    * `pos = chunk.find_quote_end(pos)`, then `pos += 1`. */
  method Step(ls: seq<string>, c: Chunk, pos: Pos, ch: char, ghost j: nat) returns (r: Result<Pos>)
    requires Valid(ls, c) && Lo(ls, c) <= j < Hi(ls, c) && pos == PosAt(ls, j) && Normal(ls, pos)
    requires CharAtPos(ls, c, pos) == Ok(ch)
    ensures r == AsPos(ls, Advance(Flat(ls), Hi(ls, c), j, ch))
    ensures r.Ok? ==> Normal(ls, r.value)
  {
    if IsQuote(ch) {
      r := StepQuote(ls, c, pos, ch, j);
      return;
    }
    PosAtSpec(ls, j);
    assert Advance(Flat(ls), Hi(ls, c), j, ch) == Ok(j + 1);
    r := Add(ls, pos, 1);
    PosAtSpec(ls, j + 1);
  }

  /** Step at a quote: past the quote that closes it, or the error of the search. */
  method StepQuote(ls: seq<string>, c: Chunk, pos: Pos, ch: char, ghost j: nat) returns (r: Result<Pos>)
    requires Valid(ls, c) && Lo(ls, c) <= j < Hi(ls, c) && pos == PosAt(ls, j) && Normal(ls, pos)
    requires CharAtPos(ls, c, pos) == Ok(ch) && IsQuote(ch)
    ensures r == AsPos(ls, Advance(Flat(ls), Hi(ls, c), j, ch))
    ensures r.Ok? ==> Normal(ls, r.value)
  {
    PosAtSpec(ls, j);
    QuoteEndIs(ls, c, pos, ch);
    var e := FindQuoteEnd(ls, c, pos);
    if e.Err? {
      return Err(e.error);
    }
    if e.value.None? {
      return Err(TypeError);
    }
    ghost var n := QuoteScan(Flat(ls), Hi(ls, c), j + 1, ch, false).value.value;
    assert e == Ok(Some(PosAt(ls, n)));
    var p := e.value.value;
    PosAtSpec(ls, n);
    assert Advance(Flat(ls), Hi(ls, c), j, ch) == Ok(n + 1);
    assert Offset(ls, p) == n && n + 1 <= Total(ls);
    r := Add(ls, p, 1);
    PosAtSpec(ls, n + 1);
  }

  /** find_quote_end at a quote char is the quote scan after it. */
  lemma QuoteEndIs(ls: seq<string>, c: Chunk, p: Pos, ch: char)
    requires Valid(ls, c) && Normal(ls, p) && CharAtPos(ls, c, p) == Ok(ch) && IsQuote(ch)
    ensures QuoteEnd(ls, c, p) == QuoteScan(Flat(ls), Hi(ls, c), Offset(ls, p) + 1, ch, false)
  {
  }

  // ---------------------------------------------------------------------
  // find_pair

  /** The scan of find_pair from offset j at bracket depth `depth`: only
    * the opening bracket's own kind is counted; the close that brings the
    * depth back to 0 is the answer; a ';' is a ParsingException unless
    * allowed; quoted text is skipped; running off the chunk is a
    * ParsingException. */
  function PairScan(t: string, hi: nat, j: nat, open: char, close: char, depth: int, semicolon: bool): (r: Result<nat>)
    requires hi <= |t|
    ensures r.Ok? ==> j <= r.value < hi && t[r.value] == close
    decreases hi - j
  {
    if j >= hi then Err(ParsingException)
    else
      var ch := t[j];
      var d := if ch == open then depth + 1 else if ch == close then depth - 1 else depth;
      if ch != open && ch == close && d == 0 then Ok(j)
      else if ch == ';' && !semicolon then Err(ParsingException)
      else
        match Advance(t, hi, j, ch)
        case Err(e) => Err(e)
        case Ok(n) => PairScan(t, hi, n, open, close, d, semicolon)
  }

  /** Chunk.find_pair(pos, allow_semicolon) as offsets: IndexError off the
    * chunk, ValueError unless an opening bracket is there, then the scan
    * of the sub-chunk from it. */
  function PairEnd(ls: seq<string>, c: Chunk, p: Pos, semicolon: bool): (r: Result<nat>)
    requires Valid(ls, c) && Normal(ls, p)
    ensures r.Ok? ==> Offset(ls, p) <= r.value < Hi(ls, c)
  {
    var ch := CharAtPos(ls, c, p);
    if ch.Err? then Err(IndexError)
    else if !IsOpen(ch.value) then Err(ValueError)
    else PairScan(Flat(ls), Hi(ls, c), Offset(ls, p), ch.value, CloseOf(ch.value), 0, semicolon)
  }

  /** Chunk.find_pair: check the bracket, take the sub-chunk from it, and
    * walk it counting that bracket kind. */
  method FindPair(ls: seq<string>, c: Chunk, p: Pos, semicolon: bool) returns (r: Result<Pos>)
    requires Valid(ls, c) && Normal(ls, p)
    ensures r == AsPos(ls, PairEnd(ls, c, p, semicolon))
  {
    var ch := CharAtPos(ls, c, p);
    if ch.Err? {
      return Err(IndexError);
    }
    if !IsOpen(ch.value) {
      return Err(ValueError);
    }
    var sub := Slice(ls, c, At(p), Default);
    assert sub == Ok(Span(ls, Offset(ls, p), Hi(ls, c)));
    r := PairLoop(ls, sub.value, ch.value, semicolon);
  }

  /** The loop of find_pair over the sub-chunk that starts at the bracket. */
  method PairLoop(ls: seq<string>, sub: Chunk, open: char, semicolon: bool) returns (r: Result<Pos>)
    requires Valid(ls, sub) && IsOpen(open)
    ensures r == AsPos(ls, PairScan(Flat(ls), Hi(ls, sub), Lo(ls, sub), open, CloseOf(open), 0, semicolon))
  {
    ghost var t, lo, hi := Flat(ls), Lo(ls, sub), Hi(ls, sub);
    ghost var goal := PairScan(t, hi, lo, open, CloseOf(open), 0, semicolon);
    var close := CloseOf(open);
    var depth := 0;
    var pos := sub.start;
    ghost var j := lo;
    OffsetPosAt(ls, pos);
    while true
      invariant lo <= j <= hi && pos == PosAt(ls, j)
      invariant PairScan(t, hi, j, open, close, depth, semicolon) == goal
      decreases hi - j
    {
      PosAtSpec(ls, j);
      var x := CharAtPos(ls, sub, pos);
      if x.Err? {
        return Err(ParsingException);
      }
      var ch := x.value;
      if ch == open {
        depth := depth + 1;
      } else if ch == close {
        depth := depth - 1;
        if depth == 0 {
          return Ok(pos);
        }
      }
      if ch == ';' && !semicolon {
        return Err(ParsingException);
      }
      var next := Step(ls, sub, pos, ch, j);
      if next.Err? {
        return Err(next.error);
      }
      j := Advance(t, hi, j, ch).value;
      pos := next.value;
    }
  }

  /** k spaces. */
  function Blank(k: nat): (r: string)
    ensures |r| == k && forall i :: 0 <= i < k ==> r[i] == ' '
  {
    seq(k, _ => ' ')
  }

  /** The text the bracket scans see from offset j: each quoted string, as
    * find_quote_end skips it, blanked out with spaces, every other
    * character as it is; a quote that does not close gives the error the
    * scans raise on it. */
  function Masked(t: string, hi: nat, j: nat): (r: Result<string>)
    requires j <= hi <= |t|
    ensures r.Ok? ==> |r.value| == hi - j
    decreases hi - j
  {
    if j == hi then Ok("")
    else
      match Advance(t, hi, j, t[j])
      case Err(e) => Err(e)
      case Ok(n) =>
        match Masked(t, hi, n)
        case Err(e) => Err(e)
        case Ok(m) => Ok((if IsQuote(t[j]) then Blank(n - j) else [t[j]]) + m)
  }

  /** Text without quotes is seen as it is. */
  lemma {:induction false} MaskedPlain(t: string, hi: nat, j: nat)
    requires j <= hi <= |t|
    requires forall m :: j <= m < hi ==> !IsQuote(t[m])
    ensures Masked(t, hi, j) == Ok(t[j..hi])
    decreases hi - j
  {
    if j < hi {
      assert Advance(t, hi, j, t[j]) == Ok(j + 1);
      MaskedPlain(t, hi, j + 1);
      assert [t[j]] + t[j + 1..hi] == t[j..hi];
    }
  }

  /** Opening minus closing brackets of one kind in s. */
  function Balance(s: string, open: char, close: char): int
    decreases |s|
  {
    if |s| == 0 then 0
    else (if s[0] == open then 1 else if s[0] == close then -1 else 0) + Balance(s[1..], open, close)
  }

  /** Balance counts the two brackets. */
  lemma {:induction false} BalanceCounts(s: string, open: char, close: char)
    requires open != close
    ensures Balance(s, open, close) == multiset(s)[open] as int - multiset(s)[close] as int
    decreases |s|
  {
    if |s| > 0 {
      BalanceCounts(s[1..], open, close);
      assert s == [s[0]] + s[1..];
    }
  }

  /** The balance of a concatenation is the sum of the balances. */
  lemma {:induction false} BalanceAppend(a: string, b: string, open: char, close: char)
    ensures Balance(a + b, open, close) == Balance(a, open, close) + Balance(b, open, close)
    decreases |a|
  {
    if |a| > 0 {
      BalanceAppend(a[1..], b, open, close);
      assert (a + b)[0] == a[0] && (a + b)[1..] == a[1..] + b;
    } else {
      assert a + b == b;
    }
  }

  /** Text holding neither bracket is balanced. */
  lemma {:induction false} BalanceNone(s: string, open: char, close: char)
    requires forall i :: 0 <= i < |s| ==> s[i] != open && s[i] != close
    ensures Balance(s, open, close) == 0
    decreases |s|
  {
    if |s| > 0 {
      BalanceNone(s[1..], open, close);
    }
  }

  /** What the first step of a scan contributes to the masked text. */
  lemma MaskedStep(t: string, hi: nat, j: nat, ms: string) returns (n: nat, pre: string, ms': string)
    requires j < hi <= |t| && Masked(t, hi, j) == Ok(ms)
    ensures Advance(t, hi, j, t[j]) == Ok(n) && Masked(t, hi, n) == Ok(ms')
    ensures ms == pre + ms' && |pre| == n - j > 0
    ensures IsQuote(t[j]) ==> pre == Blank(n - j)
    ensures !IsQuote(t[j]) ==> pre == [t[j]] && n == j + 1
  {
    n := Advance(t, hi, j, t[j]).value;
    ms' := Masked(t, hi, n).value;
    pre := if IsQuote(t[j]) then Blank(n - j) else [t[j]];
  }

  /** What PairScanMasked states about the scan from `j` at depth `d`, whose masked text is `ms`. */
  ghost predicate MaskedScanFacts(t: string, hi: nat, j: nat, open: char, close: char, d: int, ms: string)
    requires hi <= |t|
  {
    var r := PairScan(t, hi, j, open, close, d, true);
    (r.Ok? ==> r.value - j + 1 <= |ms| && d + Balance(ms[..r.value - j + 1], open, close) == 0 &&
               forall m :: 0 <= m <= r.value - j ==> d + Balance(ms[..m], open, close) > 0) &&
    (r.Err? ==> r.error == ParsingException &&
                forall m :: 0 <= m <= |ms| ==> d + Balance(ms[..m], open, close) > 0)
  }

  /** The bracket scan at depth d > 0, with ';' allowed, over text whose
    * quoted strings all close: quoted text is passed over, and the scan
    * stops at the first offset where the depth of the masked text reaches
    * 0, failing with a ParsingException exactly when it never does. */
  lemma {:induction false} PairScanMasked(t: string, hi: nat, j: nat, open: char, close: char, d: int, ms: string)
    requires j <= hi <= |t| && IsOpen(open) && close == CloseOf(open) && d > 0
    requires Masked(t, hi, j) == Ok(ms)
    ensures MaskedScanFacts(t, hi, j, open, close, d, ms)
    decreases hi - j
  {
    if j == hi {
      MaskedScanEnd(t, hi, j, open, close, d, ms);
      return;
    }
    var ch := t[j];
    var n, pre, ms' := MaskedStep(t, hi, j, ms);
    var d' := if ch == open then d + 1 else if ch == close then d - 1 else d;
    if ch == close && d' == 0 {
      MaskedScanClose(t, hi, j, open, close, d, ms);
      return;
    }
    PairScanMasked(t, hi, n, open, close, d', ms');
    MaskedScanOn(t, hi, j, open, close, d, ms, n, pre, ms', d');
  }

  /** PairScanMasked when the text is used up. */
  lemma MaskedScanEnd(t: string, hi: nat, j: nat, open: char, close: char, d: int, ms: string)
    requires j == hi <= |t| && d > 0 && Masked(t, hi, j) == Ok(ms)
    ensures MaskedScanFacts(t, hi, j, open, close, d, ms)
  {
    assert ms == "" && forall m :: 0 <= m <= |ms| ==> ms[..m] == "";
  }

  /** PairScanMasked at the bracket that closes the outermost one. */
  lemma MaskedScanClose(t: string, hi: nat, j: nat, open: char, close: char, d: int, ms: string)
    requires j < hi <= |t| && IsOpen(open) && close == CloseOf(open) && d > 0
    requires Masked(t, hi, j) == Ok(ms) && t[j] == close && d - 1 == 0
    ensures MaskedScanFacts(t, hi, j, open, close, d, ms)
  {
    var n, pre, ms' := MaskedStep(t, hi, j, ms);
    assert ms[..0] == "";
    assert ms[..1] == pre == [close];
  }

  /** PairScanMasked past one step that leaves the depth positive, given what it states after the step. */
  lemma MaskedScanOn(t: string, hi: nat, j: nat, open: char, close: char, d: int, ms: string,
                     n: nat, pre: string, ms': string, d': int)
    requires j < hi <= |t| && IsOpen(open) && close == CloseOf(open) && d > 0
    requires Advance(t, hi, j, t[j]) == Ok(n) && ms == pre + ms' && |pre| == n - j > 0
    requires IsQuote(t[j]) ==> pre == Blank(n - j)
    requires !IsQuote(t[j]) ==> pre == [t[j]] && n == j + 1
    requires d' == if t[j] == open then d + 1 else if t[j] == close then d - 1 else d
    requires !(t[j] == close && d' == 0)
    requires n <= hi && MaskedScanFacts(t, hi, n, open, close, d', ms')
    ensures MaskedScanFacts(t, hi, j, open, close, d, ms)
  {
    var ch := t[j];
    var r := PairScan(t, hi, j, open, close, d, true);
    assert r == PairScan(t, hi, n, open, close, d', true);
    StepPositive(ch, pre, open, close, d, d');
    if r.Ok? {
      PositiveThrough(pre, ms', open, close, d, d', r.value - n);
      assert ms[..r.value - j + 1] == pre + ms'[..r.value - n + 1];
      BalanceAppend(pre, ms'[..r.value - n + 1], open, close);
    } else {
      PositiveThrough(pre, ms', open, close, d, d', |ms'|);
    }
  }

  /** The depth stays positive over one step of the scan that does not
    * close the outermost bracket. */
  lemma StepPositive(ch: char, pre: string, open: char, close: char, d: int, d': int)
    requires IsOpen(open) && close == CloseOf(open) && d > 0
    requires d' == if ch == open then d + 1 else if ch == close then d - 1 else d
    requires !(ch == close && d' == 0)
    requires IsQuote(ch) ==> pre == Blank(|pre|)
    requires !IsQuote(ch) ==> pre == [ch]
    ensures d + Balance(pre, open, close) == d' > 0
    ensures forall m :: 0 <= m <= |pre| ==> d + Balance(pre[..m], open, close) > 0
  {
    if IsQuote(ch) {
      BalanceNone(pre, open, close);
      forall m | 0 <= m <= |pre|
        ensures d + Balance(pre[..m], open, close) > 0
      {
        BalanceNone(pre[..m], open, close);
      }
    } else {
      assert pre[1..] == "" && pre[..0] == "" && pre[..1] == pre;
    }
  }

  /** A positive depth over a prefix and then over what follows it is
    * positive over the whole. */
  lemma PositiveThrough(pre: string, rest: string, open: char, close: char, d: int, d': int, k: nat)
    requires d + Balance(pre, open, close) == d' && k <= |rest|
    requires forall m :: 0 <= m <= |pre| ==> d + Balance(pre[..m], open, close) > 0
    requires forall m :: 0 <= m <= k ==> d' + Balance(rest[..m], open, close) > 0
    ensures forall m :: 0 <= m <= |pre| + k ==> d + Balance((pre + rest)[..m], open, close) > 0
  {
    forall m | 0 <= m <= |pre| + k
      ensures d + Balance((pre + rest)[..m], open, close) > 0
    {
      if m <= |pre| {
        assert (pre + rest)[..m] == pre[..m];
      } else {
        assert (pre + rest)[..m] == pre + rest[..m - |pre|];
        BalanceAppend(pre, rest[..m - |pre|], open, close);
      }
    }
  }

  /** find_pair's answer over text whose quoted strings all close, with ';'
    * allowed: the first offset after the bracket where opens minus closes
    * of its kind, outside quotes, return to 0; a ParsingException exactly
    * when there is none. */
  lemma PairScanBalanced(t: string, hi: nat, i: nat, open: char, ms: string)
    requires i < hi <= |t| && IsOpen(open) && t[i] == open && Masked(t, hi, i) == Ok(ms)
    ensures var r := PairScan(t, hi, i, open, CloseOf(open), 0, true);
      (r.Ok? ==> i < r.value && Balance(ms[..r.value - i + 1], open, CloseOf(open)) == 0 &&
                 forall m :: 0 < m <= r.value - i ==> Balance(ms[..m], open, CloseOf(open)) > 0) &&
      (r.Err? ==> r.error == ParsingException &&
                  forall m :: 0 < m <= |ms| ==> Balance(ms[..m], open, CloseOf(open)) > 0)
  {
    var close := CloseOf(open);
    var n, pre, ms' := MaskedStep(t, hi, i, ms);
    PairScanAtOpen(t, hi, i, open);
    PairScanMasked(t, hi, n, open, close, 1, ms');
    BalancedAfterOpen(PairScan(t, hi, i, open, close, 0, true), i, ms, ms', open, close);
  }

  /** find_pair's scan steps over the opening bracket to depth 1. */
  lemma PairScanAtOpen(t: string, hi: nat, i: nat, open: char)
    requires i < hi <= |t| && IsOpen(open) && t[i] == open
    ensures PairScan(t, hi, i, open, CloseOf(open), 0, true) == PairScan(t, hi, i + 1, open, CloseOf(open), 1, true)
  {
    assert Advance(t, hi, i, open) == Ok(i + 1);
  }

  /** PairScanBalanced's conclusion from what PairScanMasked states of the scan past the opening bracket. */
  lemma BalancedAfterOpen(r: Result<nat>, i: nat, ms: string, ms': string, open: char, close: char)
    requires IsOpen(open) && close == CloseOf(open) && ms == [open] + ms'
    requires r.Ok? ==>
               i + 1 <= r.value && r.value - (i + 1) + 1 <= |ms'| &&
               1 + Balance(ms'[..r.value - (i + 1) + 1], open, close) == 0 &&
               forall m :: 0 <= m <= r.value - (i + 1) ==> 1 + Balance(ms'[..m], open, close) > 0
    requires r.Err? ==>
               r.error == ParsingException &&
               forall m :: 0 <= m <= |ms'| ==> 1 + Balance(ms'[..m], open, close) > 0
    ensures r.Ok? ==>
              i < r.value && Balance(ms[..r.value - i + 1], open, close) == 0 &&
              forall m :: 0 < m <= r.value - i ==> Balance(ms[..m], open, close) > 0
    ensures r.Err? ==>
              r.error == ParsingException &&
              forall m :: 0 < m <= |ms| ==> Balance(ms[..m], open, close) > 0
  {
    BalanceAfterOpen(ms, ms', open, close);
  }

  /** Past an opening bracket, the balance of every non-empty prefix is one more than that of the rest's prefix. */
  lemma BalanceAfterOpen(ms: string, ms': string, open: char, close: char)
    requires IsOpen(open) && close == CloseOf(open) && ms == [open] + ms'
    ensures forall m :: 0 < m <= |ms| ==> Balance(ms[..m], open, close) == 1 + Balance(ms'[..m - 1], open, close)
  {
    forall m | 0 < m <= |ms|
      ensures Balance(ms[..m], open, close) == 1 + Balance(ms'[..m - 1], open, close)
    {
      assert ms[..m] == [open] + ms'[..m - 1];
    }
  }

  /** What PairScanSemicolon states about the scans from `j` at depth `d`, whose masked text is `ms`. */
  ghost predicate SemicolonFacts(t: string, hi: nat, j: nat, open: char, close: char, d: int, ms: string)
    requires hi <= |t|
  {
    var r := PairScan(t, hi, j, open, close, d, true);
    (r.Err? ==> r.error == ParsingException) &&
    (r.Ok? ==> r.value - j <= |ms|) &&
    PairScan(t, hi, j, open, close, d, false) ==
      if r.Ok? && ';' in ms[..r.value - j] then Err(ParsingException) else r
  }

  /** Disallowing ';' turns find_pair's scan into a ParsingException
    * exactly when a ';' outside quotes comes before the closing bracket;
    * otherwise the answer is the same. */
  lemma {:induction false} PairScanSemicolon(t: string, hi: nat, j: nat, open: char, close: char, d: int, ms: string)
    requires j <= hi <= |t| && IsOpen(open) && close == CloseOf(open) && Masked(t, hi, j) == Ok(ms)
    ensures SemicolonFacts(t, hi, j, open, close, d, ms)
    decreases hi - j
  {
    if j == hi {
      SemicolonEnd(t, hi, j, open, close, d, ms);
      return;
    }
    var ch := t[j];
    var n, pre, ms' := MaskedStep(t, hi, j, ms);
    var d' := if ch == open then d + 1 else if ch == close then d - 1 else d;
    if ch == close && d' == 0 {
      SemicolonClose(t, hi, j, open, close, d, ms);
      return;
    }
    PairScanSemicolon(t, hi, n, open, close, d', ms');
    SemicolonOn(t, hi, j, open, close, d, ms, n, pre, ms', d');
  }

  /** PairScanSemicolon when the text is used up. */
  lemma SemicolonEnd(t: string, hi: nat, j: nat, open: char, close: char, d: int, ms: string)
    requires j == hi <= |t|
    ensures SemicolonFacts(t, hi, j, open, close, d, ms)
  {
  }

  /** PairScanSemicolon at the bracket that closes the outermost one. */
  lemma SemicolonClose(t: string, hi: nat, j: nat, open: char, close: char, d: int, ms: string)
    requires j < hi <= |t| && IsOpen(open) && close == CloseOf(open)
    requires t[j] == close && d - 1 == 0
    ensures SemicolonFacts(t, hi, j, open, close, d, ms)
  {
    assert ms[..0] == "";
  }

  /** PairScanSemicolon past one step that does not close the outermost bracket, given what it states after the step. */
  lemma SemicolonOn(t: string, hi: nat, j: nat, open: char, close: char, d: int, ms: string,
                    n: nat, pre: string, ms': string, d': int)
    requires j < hi <= |t| && IsOpen(open) && close == CloseOf(open)
    requires Advance(t, hi, j, t[j]) == Ok(n) && ms == pre + ms' && |pre| == n - j > 0
    requires IsQuote(t[j]) ==> pre == Blank(n - j)
    requires !IsQuote(t[j]) ==> pre == [t[j]] && n == j + 1
    requires d' == if t[j] == open then d + 1 else if t[j] == close then d - 1 else d
    requires !(t[j] == close && d' == 0)
    requires n <= hi && SemicolonFacts(t, hi, n, open, close, d', ms')
    ensures SemicolonFacts(t, hi, j, open, close, d, ms)
  {
    var ch := t[j];
    var r := PairScan(t, hi, j, open, close, d, true);
    assert r == PairScan(t, hi, n, open, close, d', true);
    if r.Ok? {
      assert ms[..r.value - j] == pre + ms'[..r.value - n];
      assert ';' in ms[..r.value - j] <==> ';' in pre || ';' in ms'[..r.value - n];
      if IsQuote(ch) {
        assert ';' !in pre;
      }
    }
  }

  // ---------------------------------------------------------------------
  // find_in_scope and scope_tokens

  /** What both scope walks do at an opening bracket or a quote: jump to
    * its partner (find_pair with ';' allowed, or find_quote_end), then one
    * further; any other character is passed by one. */
  function ScopeSkip(t: string, hi: nat, j: nat, ch: char): (r: Result<nat>)
    requires j < hi <= |t|
    ensures r.Ok? ==> j < r.value <= hi
  {
    if IsOpen(ch) then
      match PairScan(t, hi, j, ch, CloseOf(ch), 0, true)
      case Err(e) => Err(e)
      case Ok(e) => Ok(e + 1)
    else Advance(t, hi, j, ch)
  }

  /** The walk of find_in_scope from offset j, where `s` is the text
    * collected since the last bracket or quote (or, after one, its closing
    * character).  The answer is the offset where `sub` starts; running off
    * the chunk is a KeyError; the scanners' own errors propagate. */
  function ScopeFind(t: string, hi: nat, sub: string, j: nat, s: string): (r: Result<nat>)
    requires j <= hi <= |t|
    ensures r.Ok? ==> r.value <= hi
    decreases hi - j
  {
    if EndsWith(s, sub) then
      (if |sub| <= j then Ok(j - |sub|) else Err(ValueError))
    else if j >= hi then Err(KeyError)
    else
      var ch := t[j];
      if (IsOpen(ch) || IsQuote(ch)) && EndsWith(s + [ch], sub) then
        (if |sub| - 1 <= j then Ok(j - (|sub| - 1)) else Err(ValueError))
      else
        match ScopeSkip(t, hi, j, ch)
        case Err(e) => Err(e)
        case Ok(n) => ScopeFind(t, hi, sub, n, Collected(s, ch))
  }

  /** The text find_in_scope has collected after passing `ch`: the closing
    * bracket or the quote when it skipped a group, else one more char. */
  function Collected(s: string, ch: char): string {
    if IsOpen(ch) then [CloseOf(ch)] else if IsQuote(ch) then [ch] else s + [ch]
  }

  /** find_in_scope on a chunk: its answer is where `sub` occurs in the
    * chunk. */
  function ScopeFindIn(ls: seq<string>, c: Chunk, sub: string): (r: Result<nat>)
    requires Valid(ls, c)
    ensures r.Ok? ==> Lo(ls, c) <= r.value && r.value + |sub| <= Hi(ls, c) && OccursAt(Flat(ls), sub, r.value)
  {
    var t, lo := Flat(ls), Lo(ls, c);
    assert t[lo..lo] == "";
    ScopeFindSound(t, Hi(ls, c), sub, lo, lo, lo);
    ScopeFind(t, Hi(ls, c), sub, lo, "")
  }

  /** A suffix of the text before j ends with `sub` exactly when `sub`
    * occurs there ending at j. */
  lemma EndsWithOccurs(t: string, i: nat, j: nat, sub: string)
    requires i <= j <= |t|
    ensures EndsWith(t[i..j], sub) <==> |sub| <= j - i && OccursAt(t, sub, j - |sub|)
  {
    if |sub| <= j - i {
      assert t[i..j][j - i - |sub|..] == t[j - |sub|..j];
    }
  }

  /** Whatever find_in_scope answers is an occurrence of `sub` inside the
    * chunk, given that the collected text is the text from `base` to j. */
  lemma {:induction false} ScopeFindSound(t: string, hi: nat, sub: string, lo: nat, base: nat, j: nat)
    requires lo <= base <= j <= hi <= |t|
    ensures var r := ScopeFind(t, hi, sub, j, t[base..j]);
      r.Ok? ==> lo <= r.value && r.value + |sub| <= hi && OccursAt(t, sub, r.value)
    decreases hi - j
  {
    var s := t[base..j];
    var r := ScopeFind(t, hi, sub, j, s);
    EndsWithOccurs(t, base, j, sub);
    if EndsWith(s, sub) {
      assert r == Ok(j - |sub|);
    } else if j < hi {
      var ch := t[j];
      if (IsOpen(ch) || IsQuote(ch)) && EndsWith(s + [ch], sub) {
        FoundAfter(t, base, j, sub);
        assert r == Ok(j + 1 - |sub|);
      } else {
        var n := ScopeSkip(t, hi, j, ch);
        if n.Ok? {
          var base' := ScopeSkipLands(t, hi, base, j);
          assert r == ScopeFind(t, hi, sub, n.value, t[base'..n.value]);
          ScopeFindSound(t, hi, sub, lo, base', n.value);
        } else {
          assert r == Err(n.error);
        }
      }
    } else {
      assert r == Err(KeyError);
    }
  }

  /** The second exit of find_in_scope: `sub` ends with the bracket or
    * quote at j. */
  lemma FoundAfter(t: string, base: nat, j: nat, sub: string)
    requires base <= j < |t| && EndsWith(t[base..j] + [t[j]], sub)
    ensures |sub| <= j + 1 - base && OccursAt(t, sub, j + 1 - |sub|)
  {
    SnocSlice(t, base, j);
    EndsWithOccurs(t, base, j + 1, sub);
  }

  lemma SnocSlice(t: string, i: nat, j: nat)
    requires i <= j < |t|
    ensures t[i..j] + [t[j]] == t[i..j + 1]
  {
  }

  /** After a scope step the collected text is again a slice of the text
    * ending at the new offset. */
  lemma ScopeSkipLands(t: string, hi: nat, base: nat, j: nat) returns (base': nat)
    requires base <= j < hi <= |t| && ScopeSkip(t, hi, j, t[j]).Ok?
    ensures var n := ScopeSkip(t, hi, j, t[j]).value;
      base <= base' <= n && Collected(t[base..j], t[j]) == t[base'..n]
  {
    var ch, n := t[j], ScopeSkip(t, hi, j, t[j]).value;
    if IsOpen(ch) || IsQuote(ch) {
      base' := n - 1;
      assert t[base'..n] == [t[n - 1]];
    } else {
      base' := base;
      assert t[base..j] + [ch] == t[base..j + 1];
    }
  }

  /** Passing a character that is neither a bracket nor a quote. */
  lemma ScopeFindPlainStep(t: string, hi: nat, sub: string, base: nat, j: nat)
    requires base <= j < hi <= |t| && !IsOpen(t[j]) && !IsQuote(t[j]) && !EndsWith(t[base..j], sub)
    ensures ScopeFind(t, hi, sub, j, t[base..j]) == ScopeFind(t, hi, sub, j + 1, t[base..j + 1])
  {
    assert t[base..j] + [t[j]] == t[base..j + 1];
    assert ScopeSkip(t, hi, j, t[j]) == Ok(j + 1);
  }

  /** In text without brackets or quotes find_in_scope is str.find: the
    * first occurrence of `sub` from `base`, or a KeyError when there is
    * none before the chunk's end (`s` is the text from base, in which
    * no occurrence ends before j). */
  lemma {:induction false} ScopeFindPlainFrom(t: string, hi: nat, sub: string, base: nat, j: nat)
    requires base <= j <= hi <= |t|
    requires forall m :: j <= m < hi ==> !IsOpen(t[m]) && !IsQuote(t[m])
    requires forall k :: base <= k && k + |sub| < j ==> !OccursAt(t, sub, k)
    ensures PlainFindFacts(t, hi, sub, base, j)
    decreases hi - j
  {
    if EndsWith(t[base..j], sub) {
      PlainFound(t, hi, sub, base, j);
    } else if j >= hi {
      PlainMissing(t, hi, sub, base, j);
    } else {
      PlainNotEndingAt(t, sub, base, j);
      ScopeFindPlainFrom(t, hi, sub, base, j + 1);
      PlainFindOn(t, hi, sub, base, j);
    }
  }

  /** What ScopeFindPlainFrom states about find_in_scope from `j`, the text from `base` read so far. */
  ghost predicate PlainFindFacts(t: string, hi: nat, sub: string, base: nat, j: nat)
    requires base <= j <= hi <= |t|
  {
    var r := ScopeFind(t, hi, sub, j, t[base..j]);
    (r.Ok? ==> base <= r.value && OccursAt(t, sub, r.value) && r.value + |sub| <= hi &&
               forall k :: base <= k < r.value ==> !OccursAt(t, sub, k)) &&
    (r.Err? ==> r.error == KeyError && forall k :: base <= k && k + |sub| <= hi ==> !OccursAt(t, sub, k))
  }

  /** ScopeFindPlainFrom past one plain character, given what it states after it. */
  lemma PlainFindOn(t: string, hi: nat, sub: string, base: nat, j: nat)
    requires base <= j < hi <= |t| && !IsOpen(t[j]) && !IsQuote(t[j]) && !EndsWith(t[base..j], sub)
    requires PlainFindFacts(t, hi, sub, base, j + 1)
    ensures PlainFindFacts(t, hi, sub, base, j)
  {
    ScopeFindPlainStep(t, hi, sub, base, j);
  }

  lemma PlainFound(t: string, hi: nat, sub: string, base: nat, j: nat)
    requires base <= j <= hi <= |t| && EndsWith(t[base..j], sub)
    requires forall k :: base <= k && k + |sub| < j ==> !OccursAt(t, sub, k)
    ensures ScopeFind(t, hi, sub, j, t[base..j]) == Ok(j - |sub|)
    ensures base <= j - |sub| && OccursAt(t, sub, j - |sub|) &&
            forall k :: base <= k < j - |sub| ==> !OccursAt(t, sub, k)
  {
    EndsWithOccurs(t, base, j, sub);
  }

  lemma PlainMissing(t: string, hi: nat, sub: string, base: nat, j: nat)
    requires base <= j == hi <= |t| && !EndsWith(t[base..j], sub)
    requires forall k :: base <= k && k + |sub| < j ==> !OccursAt(t, sub, k)
    ensures ScopeFind(t, hi, sub, j, t[base..j]) == Err(KeyError)
    ensures forall k :: base <= k && k + |sub| <= hi ==> !OccursAt(t, sub, k)
  {
    PlainNotEndingAt(t, sub, base, j);
  }

  /** With no occurrence ending at j either, none ends before j + 1. */
  lemma PlainNotEndingAt(t: string, sub: string, base: nat, j: nat)
    requires base <= j <= |t| && !EndsWith(t[base..j], sub)
    requires forall k :: base <= k && k + |sub| < j ==> !OccursAt(t, sub, k)
    ensures forall k :: base <= k && k + |sub| < j + 1 ==> !OccursAt(t, sub, k)
  {
    EndsWithOccurs(t, base, j, sub);
    forall k | base <= k && k + |sub| < j + 1
      ensures !OccursAt(t, sub, k)
    {
      if k + |sub| == j {
        assert k == j - |sub|;
      }
    }
  }

  /** find_in_scope over a chunk without brackets or quotes finds the
    * first occurrence of `sub` in it, and raises KeyError when there is
    * none. */
  lemma ScopeFindPlain(ls: seq<string>, c: Chunk, sub: string)
    requires Valid(ls, c)
    requires forall m :: Lo(ls, c) <= m < Hi(ls, c) ==> !IsOpen(Flat(ls)[m]) && !IsQuote(Flat(ls)[m])
    ensures var r := ScopeFindIn(ls, c, sub);
      (r.Ok? ==> Lo(ls, c) <= r.value && r.value + |sub| <= Hi(ls, c) && OccursAt(Flat(ls), sub, r.value) &&
                 forall k :: Lo(ls, c) <= k < r.value ==> !OccursAt(Flat(ls), sub, k)) &&
      (r.Err? ==> r.error == KeyError &&
                  forall k :: Lo(ls, c) <= k && k + |sub| <= Hi(ls, c) ==> !OccursAt(Flat(ls), sub, k))
  {
    var t, lo := Flat(ls), Lo(ls, c);
    assert t[lo..lo] == "";
    ScopeFindPlainFrom(t, Hi(ls, c), sub, lo, lo);
  }

  /** One step of either scope walk at a position: find_pair or
    * find_quote_end where they apply, then `pos += 1`. */
  method ScopeStep(ls: seq<string>, c: Chunk, pos: Pos, ch: char, ghost j: nat) returns (r: Result<Pos>)
    requires Valid(ls, c) && Lo(ls, c) <= j < Hi(ls, c) && pos == PosAt(ls, j) && Normal(ls, pos)
    requires CharAtPos(ls, c, pos) == Ok(ch)
    ensures r == AsPos(ls, ScopeSkip(Flat(ls), Hi(ls, c), j, ch))
    ensures r.Ok? ==> Normal(ls, r.value)
  {
    if !IsOpen(ch) {
      r := Step(ls, c, pos, ch, j);
      return;
    }
    PosAtSpec(ls, j);
    ghost var t, hi := Flat(ls), Hi(ls, c);
    assert PairEnd(ls, c, pos, true) == PairScan(t, hi, j, ch, CloseOf(ch), 0, true);
    var e := FindPair(ls, c, pos, true);
    if e.Err? {
      return Err(e.error);
    }
    ghost var k := PairScan(t, hi, j, ch, CloseOf(ch), 0, true).value;
    assert e == Ok(PosAt(ls, k));
    PosAtSpec(ls, k);
    assert ScopeSkip(t, hi, j, ch) == Ok(k + 1);
    r := Add(ls, e.value, 1);
    PosAtSpec(ls, k + 1);
  }

  /** find_in_scope(sub_str, chunk). */
  method FindInScope(ls: seq<string>, c: Chunk, sub: string) returns (r: Result<Pos>)
    requires Valid(ls, c)
    ensures r == AsPos(ls, ScopeFindIn(ls, c, sub))
  {
    OffsetPosAt(ls, c.start);
    r := ScopeFindLoop(ls, c, sub);
  }

  /** The loop of find_in_scope. */
  method ScopeFindLoop(ls: seq<string>, c: Chunk, sub: string) returns (r: Result<Pos>)
    requires Valid(ls, c) && c.start == PosAt(ls, Lo(ls, c))
    ensures r == AsPos(ls, ScopeFind(Flat(ls), Hi(ls, c), sub, Lo(ls, c), ""))
  {
    ghost var t, lo, hi := Flat(ls), Lo(ls, c), Hi(ls, c);
    ghost var goal := ScopeFind(t, hi, sub, lo, "");
    var s := "";
    var pos := c.start;
    ghost var j := lo;
    while true
      invariant lo <= j <= hi && pos == PosAt(ls, j)
      invariant ScopeFind(t, hi, sub, j, s) == goal
      decreases hi - j
    {
      PosAtSpec(ls, j);
      if EndsWith(s, sub) {
        r := Back(ls, pos, |sub|, j);
        return;
      }
      var x := CharAtPos(ls, c, pos);
      if x.Err? {
        return Err(KeyError);
      }
      var ch := x.value;
      if (IsOpen(ch) || IsQuote(ch)) && EndsWith(s + [ch], sub) {
        r := Back(ls, pos, |sub| - 1, j);
        return;
      }
      var next := ScopeStep(ls, c, pos, ch, j);
      if next.Err? {
        return Err(next.error);
      }
      s := Collected(s, ch);
      j := ScopeSkip(t, hi, j, ch).value;
      pos := next.value;
    }
  }

  /** `pos - n` at offset j, as an offset result. */
  method Back(ls: seq<string>, pos: Pos, n: nat, ghost j: nat) returns (r: Result<Pos>)
    requires WellFormed(ls) && |ls| > 0 && j <= Total(ls) && pos == PosAt(ls, j)
    ensures r == AsPos(ls, if n <= j then Ok(j - n) else Err(ValueError))
  {
    PosAtSpec(ls, j);
    r := Sub(ls, pos, n);
  }

  /** The walk of scope_tokens from offset j with `s` collected so far:
    * bracketed and quoted groups are skipped whole, every other character
    * is collected; the scanners' errors propagate. */
  function ScopeText(t: string, hi: nat, j: nat, s: string): Result<string>
    requires j <= hi <= |t|
    decreases hi - j
  {
    if j == hi then Ok(s)
    else
      var ch := t[j];
      if IsOpen(ch) || IsQuote(ch) then
        match ScopeSkip(t, hi, j, ch)
        case Err(e) => Err(e)
        case Ok(n) => ScopeText(t, hi, n, s)
      else ScopeText(t, hi, j + 1, s + [ch])
  }

  /** scope_tokens(chunk): the word runs of the chunk's top-level text. */
  function ScopeTokensOf(ls: seq<string>, c: Chunk): Result<seq<string>>
    requires Valid(ls, c)
  {
    match ScopeText(Flat(ls), Hi(ls, c), Lo(ls, c), "")
    case Err(e) => Err(e)
    case Ok(s) => Ok(Tokens(s))
  }

  /** The collected text extends `s` by characters that are neither
    * opening brackets nor quotes. */
  lemma {:induction false} ScopeTextTop(t: string, hi: nat, j: nat, s: string)
    requires j <= hi <= |t|
    ensures var r := ScopeText(t, hi, j, s);
      r.Ok? ==> |s| <= |r.value| <= |s| + (hi - j) && r.value[..|s|] == s &&
                forall i :: |s| <= i < |r.value| ==> !IsOpen(r.value[i]) && !IsQuote(r.value[i])
    decreases hi - j
  {
    if j < hi {
      var ch := t[j];
      if IsOpen(ch) || IsQuote(ch) {
        var n := ScopeSkip(t, hi, j, ch);
        if n.Ok? {
          ScopeTextTop(t, hi, n.value, s);
        }
      } else {
        ScopeTextTop(t, hi, j + 1, s + [ch]);
        var r := ScopeText(t, hi, j + 1, s + [ch]);
        if r.Ok? {
          assert r.value[..|s|] == (s + [ch])[..|s|];
        }
      }
    }
  }

  /** Text without brackets or quotes is collected whole. */
  lemma {:induction false} ScopeTextPlain(t: string, hi: nat, j: nat, s: string)
    requires j <= hi <= |t|
    requires forall m :: j <= m < hi ==> !IsOpen(t[m]) && !IsQuote(t[m])
    ensures ScopeText(t, hi, j, s) == Ok(s + t[j..hi])
    decreases hi - j
  {
    if j < hi {
      ScopeTextPlain(t, hi, j + 1, s + [t[j]]);
      assert s + [t[j]] + t[j + 1..hi] == s + t[j..hi];
    } else {
      assert s + t[j..hi] == s;
    }
  }

  /** Over a chunk without brackets or quotes scope_tokens agrees with
    * Chunk.tokens. */
  lemma ScopeTokensPlain(ls: seq<string>, c: Chunk)
    requires Valid(ls, c)
    requires forall m :: Lo(ls, c) <= m < Hi(ls, c) ==> !IsOpen(Flat(ls)[m]) && !IsQuote(Flat(ls)[m])
    ensures ScopeTokensOf(ls, c) == Ok(Tokens(Content(ls, c)))
  {
    ScopeTextPlain(Flat(ls), Hi(ls, c), Lo(ls, c), "");
    assert "" + Content(ls, c) == Content(ls, c);
  }

  /** scope_tokens(chunk). */
  method ScopeTokens(ls: seq<string>, c: Chunk) returns (r: Result<seq<string>>)
    requires Valid(ls, c)
    ensures r == ScopeTokensOf(ls, c)
  {
    ghost var t, lo, hi := Flat(ls), Lo(ls, c), Hi(ls, c);
    ghost var goal := ScopeText(t, hi, lo, "");
    var s := "";
    var pos := c.start;
    ghost var j := lo;
    OffsetPosAt(ls, c.start);
    OffsetPosAt(ls, c.end);
    while pos != c.end
      invariant lo <= j <= hi && pos == PosAt(ls, j)
      invariant ScopeText(t, hi, j, s) == goal
      decreases hi - j
    {
      PosAtSpec(ls, j);
      var ch := CharAtPos(ls, c, pos).value;
      if IsOpen(ch) || IsQuote(ch) {
        var next := ScopeStep(ls, c, pos, ch, j);
        if next.Err? {
          return Err(next.error);
        }
        j := ScopeSkip(t, hi, j, ch).value;
        pos := next.value;
      } else {
        var next := Add(ls, pos, 1);
        PosAtSpec(ls, j + 1);
        s := s + [ch];
        j := j + 1;
        pos := next.value;
      }
    }
    PosAtSpec(ls, j);
    r := Ok(Tokens(s));
  }
}
