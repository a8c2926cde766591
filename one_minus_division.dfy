/**
 * The AVOID_USING_'1-(X/Y)'_SYNTAX rule: a numeric literal equal to one,
 * followed by `+` or `-`, with a `/` among the next ten tokens after the
 * operator, flags the operator.
 *
 * The rule looks only at default-channel tokens (the "window").
 */
module OneMinusDivision {
  import opened Tokens

  predicate OnDefault(t: Token) {
    t.channel == Default
  }

  /** The window: the default-channel tokens, in order. */
  function Window(ts: seq<Token>): (w: seq<Token>)
    ensures forall t :: t in w ==> t.channel == Default
  {
    Select(ts, OnDefault)
  }

  /**
   * The characters Python's `str.strip()` removes, those `str.isspace()`
   * accepts: tab to carriage return, the separators U+001C to U+001F, space,
   * NEL, no-break space, and the Unicode space, line and paragraph separators.
   */
  const Whitespace: set<char> :=
    {'\t', '\n', '\U{B}', '\U{C}', '\r', '\U{1C}', '\U{1D}', '\U{1E}', '\U{1F}', ' ', '\U{85}', '\U{A0}',
     '\U{1680}', '\U{2000}', '\U{2001}', '\U{2002}', '\U{2003}', '\U{2004}', '\U{2005}', '\U{2006}',
     '\U{2007}', '\U{2008}', '\U{2009}', '\U{200A}', '\U{2028}', '\U{2029}', '\U{202F}', '\U{205F}',
     '\U{3000}'}

  predicate IsSpace(c: char) {
    c in Whitespace
  }

  /** `str.strip()`: removes leading and trailing whitespace. */
  function Strip(s: string): (r: string)
    ensures |r| <= |s|
    ensures r == [] || (!IsSpace(r[0]) && !IsSpace(r[|r| - 1]))
    ensures (|s| == 0 || (!IsSpace(s[0]) && !IsSpace(s[|s| - 1]))) ==> r == s
  {
    if |s| == 0 then s
    else if IsSpace(s[0]) then Strip(s[1..])
    else if IsSpace(s[|s| - 1]) then Strip(s[..|s| - 1])
    else s
  }

  /** `r` is `s[i..j]`, and only whitespace lies outside it. */
  predicate TrimmedTo(s: string, r: string, i: nat, j: nat) {
    i <= j <= |s| && r == s[i..j] &&
    (forall m :: 0 <= m < i ==> IsSpace(s[m])) && (forall m :: j <= m < |s| ==> IsSpace(s[m]))
  }

  /** `str.strip()` keeps a slice of the text: what it removes on either side is whitespace. */
  lemma {:induction false} StripSlice(s: string)
    ensures exists i: nat, j: nat :: TrimmedTo(s, Strip(s), i, j)
  {
    if |s| == 0 {
      assert TrimmedTo(s, Strip(s), 0, 0);
    } else if IsSpace(s[0]) {
      var t := s[1..];
      StripSlice(t);
      var i: nat, j: nat :| TrimmedTo(t, Strip(t), i, j);
      StripFront(s, t, i, j);
    } else if IsSpace(s[|s| - 1]) {
      var p := s[..|s| - 1];
      StripSlice(p);
      var i: nat, j: nat :| TrimmedTo(p, Strip(p), i, j);
      StripBack(s, p, i, j);
    } else {
      assert TrimmedTo(s, Strip(s), 0, |s|);
    }
  }

  lemma StripFront(s: string, t: string, i: nat, j: nat)
    requires |s| > 0 && IsSpace(s[0]) && t == s[1..] && TrimmedTo(t, Strip(t), i, j)
    ensures TrimmedTo(s, Strip(s), i + 1, j + 1)
  {
    assert Strip(s) == Strip(t);
    assert t[i..j] == s[i + 1..j + 1];
    forall m | 0 < m < i + 1 ensures IsSpace(s[m]) {
      assert s[m] == t[m - 1];
    }
    forall m | j + 1 <= m < |s| ensures IsSpace(s[m]) {
      assert s[m] == t[m - 1];
    }
  }

  lemma StripBack(s: string, p: string, i: nat, j: nat)
    requires |s| > 0 && !IsSpace(s[0]) && IsSpace(s[|s| - 1]) && p == s[..|s| - 1] && TrimmedTo(p, Strip(p), i, j)
    ensures TrimmedTo(s, Strip(s), i, j)
  {
    assert Strip(s) == Strip(p);
    assert p[i..j] == s[i..j];
    assert forall m :: 0 <= m < |p| ==> s[m] == p[m];
  }

  /** The number of leading `0` characters. */
  function LeadingZeros(t: string): (k: nat)
    ensures k <= |t| && (forall m :: 0 <= m < k ==> t[m] == '0') && (k < |t| ==> t[k] != '0')
  {
    if |t| == 0 || t[0] != '0' then 0 else 1 + LeadingZeros(t[1..])
  }

  predicate AllZeros(t: string) {
    forall m :: 0 <= m < |t| ==> t[m] == '0'
  }

  /**
   * A literal's text whose value is one in plain decimal notation: after
   * stripping, zeros, a `1`, and optionally a point followed by zeros.
   */
  predicate DenotesOne(text: string) {
    var t := Strip(text);
    var k := LeadingZeros(t);
    k < |t| && t[k] == '1' && (k + 1 == |t| || (t[k + 1] == '.' && AllZeros(t[k + 2..])))
  }

  predicate IsNumericLiteral(t: Token) {
    t.ttype == IntegerLiteral || t.ttype == RealLiteral
  }

  predicate IsPlusOrMinus(t: Token) {
    t.ttype == Plus || t.ttype == Minus
  }

  /** Some `/` sits at a window position in `lo..hi-1`. */
  predicate HasDivIn(w: seq<Token>, lo: nat, hi: nat)
    requires hi <= |w|
  {
    exists k :: lo <= k < hi && w[k].ttype == Div
  }

  function Min(a: int, b: int): int {
    if a <= b then a else b
  }

  /** The literal at window position `i` triggers the rule (and its operator at `i + 1` is flagged). */
  predicate FlagsAt(w: seq<Token>, i: nat)
    requires i < |w|
  {
    IsNumericLiteral(w[i]) && DenotesOne(w[i].text) && i + 2 < |w| &&
    IsPlusOrMinus(w[i + 1]) && HasDivIn(w, i + 2, Min(|w|, i + 12))
  }

  /** The flagged operators of the literals at window positions below `m`, left to right. */
  function ViolatorsUpTo(w: seq<Token>, m: nat): (r: seq<Token>)
    requires m <= |w|
    ensures |r| <= m
    ensures forall t :: t in r ==> IsPlusOrMinus(t)
  {
    if m == 0 then []
    else ViolatorsUpTo(w, m - 1) + (if FlagsAt(w, m - 1) then [w[m]] else [])
  }

  /** The rule's violators on the stream `ts`. */
  function OneMinusViolators(ts: seq<Token>): seq<Token> {
    var w := Window(ts);
    ViolatorsUpTo(w, |w|)
  }

  // ---------------------------------------------------------------------
  // The rule's scan.

  /** Builds the window. */
  method CollectWindow(ts: seq<Token>) returns (w: seq<Token>)
    ensures w == Window(ts)
  {
    w := [];
    var i := 0;
    while i < |ts|
      invariant i <= |ts|
      invariant w == Select(ts[..i], OnDefault)
    {
      SelectSnoc(ts, i, OnDefault);
      if ts[i].channel == Default {
        w := w + [ts[i]];
      }
      i := i + 1;
    }
    assert ts[..i] == ts;
  }

  /** Python's `any(w.type == DIV for w in window[lo:hi])`. */
  method AnyDiv(w: seq<Token>, lo: nat, hi: nat) returns (found: bool)
    requires hi <= |w|
    ensures found == HasDivIn(w, lo, hi)
  {
    var k := lo;
    while k < hi
      invariant lo <= k || hi <= k
      invariant forall m :: lo <= m < k && m < hi ==> w[m].ttype != Div
    {
      if w[k].ttype == Div {
        return true;
      }
      k := k + 1;
    }
    return false;
  }

  /** Whether the literal at window position `i` flags its operator. */
  method CheckAt(w: seq<Token>, i: nat) returns (flag: bool)
    requires i < |w|
    ensures flag == FlagsAt(w, i)
  {
    var t := w[i];
    if t.ttype == IntegerLiteral || t.ttype == RealLiteral {
      var txt := Strip(t.text);
      var k := LeadingZeros(txt);
      var isOne := k < |txt| && txt[k] == '1' && (k + 1 == |txt| || (txt[k + 1] == '.' && AllZeros(txt[k + 2..])));
      if !isOne {
        return false;
      }
      if i + 2 < |w| {
        var op := w[i + 1];
        var hasDiv := AnyDiv(w, i + 2, Min(|w|, i + 12));
        return (op.ttype == Plus || op.ttype == Minus) && hasDiv;
      }
    }
    return false;
  }

  /** `verify_violation` of the rule: the window, then one check per literal, left to right. */
  method FindOneMinusDivision(ts: seq<Token>) returns (violators: seq<Token>)
    ensures violators == OneMinusViolators(ts)
  {
    var w := CollectWindow(ts);
    violators := [];
    var i := 0;
    while i < |w|
      invariant i <= |w|
      invariant violators == ViolatorsUpTo(w, i)
    {
      var flag := CheckAt(w, i);
      if flag {
        violators := violators + [w[i + 1]];
      }
      i := i + 1;
    }
  }

  // ---------------------------------------------------------------------
  // Properties.

  /** The window positions below `m` whose literal flags its operator, increasing. */
  function FlaggedPositions(w: seq<Token>, m: nat): (ps: seq<nat>)
    requires m <= |w|
    ensures forall k :: 0 <= k < |ps| ==> ps[k] < m
    ensures forall k, l :: 0 <= k < l < |ps| ==> ps[k] < ps[l]
  {
    if m == 0 then []
    else FlaggedPositions(w, m - 1) + (if FlagsAt(w, m - 1) then [m - 1] else [])
  }

  /** A position below `m` is among the flagged positions exactly when its literal flags its operator. */
  lemma {:induction false} FlaggedPositionsExact(w: seq<Token>, m: nat, i: nat)
    requires i < m <= |w|
    ensures i in FlaggedPositions(w, m) <==> FlagsAt(w, i)
  {
    var prev := FlaggedPositions(w, m - 1);
    if i < m - 1 {
      FlaggedPositionsExact(w, m - 1, i);
    } else {
      assert m - 1 !in prev;
    }
  }

  /**
   * Each flagging literal contributes exactly one violator, left to right:
   * the k-th violator is the operator right after the k-th flagging literal.
   */
  lemma {:induction false} OneViolatorPerLiteral(w: seq<Token>, m: nat)
    requires m <= |w|
    ensures |ViolatorsUpTo(w, m)| == |FlaggedPositions(w, m)|
    ensures forall k :: 0 <= k < |FlaggedPositions(w, m)| ==>
              ViolatorsUpTo(w, m)[k] == w[FlaggedPositions(w, m)[k] + 1]
  {
    if m > 0 {
      OneViolatorPerLiteral(w, m - 1);
    }
  }

  /** A flag needs a `/` at most ten tokens after the operator: tokens after position `i + 11` never matter. */
  lemma FlagIsLocal(w: seq<Token>, rest: seq<Token>, i: nat)
    requires i + 12 <= |w|
    ensures FlagsAt(w + rest, i) == FlagsAt(w, i)
  {
    assert forall k :: 0 <= k < |w| ==> (w + rest)[k] == w[k];
  }

  /** Tokens off the default channel never change the outcome. */
  lemma OffDefaultIgnored(a: seq<Token>, h: Token, b: seq<Token>)
    requires h.channel != Default
    ensures OneMinusViolators(a + [h] + b) == OneMinusViolators(a + b)
  {
    SelectSkips(a, h, b, OnDefault);
  }

  /** Positions that flag nothing add no violator. */
  lemma {:induction false} NoFlagNoViolator(w: seq<Token>, a: nat, b: nat)
    requires a <= b <= |w|
    requires forall i :: a <= i < b ==> !FlagsAt(w, i)
    ensures ViolatorsUpTo(w, b) == ViolatorsUpTo(w, a)
    decreases b - a
  {
    if a < b {
      NoFlagNoViolator(w, a, b - 1);
    }
  }

  lemma OneDenotesOne()
    ensures DenotesOne("1")
  {
    assert Strip("1") == "1";
  }

  /** The literal `1` flags its operator when a `/` follows within reach. */
  lemma LiteralOneFlags(w: seq<Token>, i: nat, d: nat)
    requires i + 2 <= d < |w| && d < i + 12
    requires IsNumericLiteral(w[i]) && w[i].text == "1" && IsPlusOrMinus(w[i + 1]) && w[d].ttype == Div
    ensures FlagsAt(w, i)
  {
    OneDenotesOne();
  }

  /** A window of 15 tokens whose only flagging literals sit at positions 0 and 8 has two violators. */
  lemma FlagsAtZeroAndEight(w: seq<Token>)
    requires |w| == 15 && FlagsAt(w, 0) && FlagsAt(w, 8)
    requires forall i :: 0 < i < 15 && i != 8 ==> !FlagsAt(w, i)
    ensures ViolatorsUpTo(w, 15) == [w[1], w[9]]
  {
    assert ViolatorsUpTo(w, 1) == [w[1]];
    NoFlagNoViolator(w, 1, 8);
    assert ViolatorsUpTo(w, 9) == [w[1], w[9]];
    NoFlagNoViolator(w, 9, 15);
  }
}

/** The test example of the rule, worked out on a concrete window. */
module OneMinusDivisionExamples {
  import opened Tokens
  import opened OneMinusDivision

  /** The token types of `1 - (a/b) + 1 + (c/d)`. */
  function TwoPatternTypes(): seq<TokenType> {
    [IntegerLiteral, Minus, OpenParens, TableOrVariable, Div, TableOrVariable, OtherType(3), Plus,
     IntegerLiteral, Plus, OpenParens, TableOrVariable, Div, TableOrVariable, OtherType(3)]
  }

  /** The window of `1 - (a/b) + 1 + (c/d)`, one token per character position. */
  function TwoPatterns(): (w: seq<Token>)
    ensures |w| == 15 && forall i :: 0 <= i < 15 ==> w[i].ttype == TwoPatternTypes()[i]
  {
    var texts := ["1", "-", "(", "a", "/", "b", ")", "+", "1", "+", "(", "c", "/", "d", ")"];
    seq(15, i requires 0 <= i < 15 => Token(TwoPatternTypes()[i], Default, texts[i], i, i, 1, i))
  }

  /** In `1 - (a/b) + 1 + (c/d)` the first literal flags its `-`. */
  lemma TwoPatternsFirstLiteralFlags()
    ensures FlagsAt(TwoPatterns(), 0)
  {
    var w := TwoPatterns();
    assert w[0].text == "1";
    LiteralOneFlags(w, 0, 4);
  }

  /** In `1 - (a/b) + 1 + (c/d)` the second literal flags the `+` after it. */
  lemma TwoPatternsSecondLiteralFlags()
    ensures FlagsAt(TwoPatterns(), 8)
  {
    var w := TwoPatterns();
    assert w[8].text == "1";
    LiteralOneFlags(w, 8, 12);
  }

  /** In `1 - (a/b) + 1 + (c/d)` no other token flags. */
  lemma TwoPatternsOthersDoNotFlag()
    ensures forall i :: 0 < i < 15 && i != 8 ==> !FlagsAt(TwoPatterns(), i)
  {
    var types := TwoPatternTypes();
    assert forall i :: 0 < i < 15 && i != 8 ==> types[i] != IntegerLiteral && types[i] != RealLiteral;
  }

  /** `1 - (a/b) + 1 + (c/d)` flags the `-` and the second `+`. */
  lemma TwoPatternsFlagTwice()
    ensures ViolatorsUpTo(TwoPatterns(), 15) == [TwoPatterns()[1], TwoPatterns()[9]]
  {
    TwoPatternsFirstLiteralFlags();
    TwoPatternsSecondLiteralFlags();
    TwoPatternsOthersDoNotFlag();
    FlagsAtZeroAndEight(TwoPatterns());
  }
}
