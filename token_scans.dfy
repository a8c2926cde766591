/**
 * Scans over the whole token stream, on every channel: the existence test of
 * `check_contains_function` and the single-token best-practice rules (DIV,
 * IFERROR, INTERSECT, EVALUATEANDLOG, FILTER), which flag every token of one
 * type.
 */
module TokenScans {
  import opened Tokens

  function IsOfType(ty: TokenType): Token -> bool {
    (t: Token) => t.ttype == ty
  }

  /** The tokens of type `ty`, in stream order: the violators of a single-token rule. */
  function OfType(ts: seq<Token>, ty: TokenType): (r: seq<Token>)
    ensures |r| <= |ts|
    ensures forall t :: t in r ==> t in ts && t.ttype == ty
  {
    Select(ts, IsOfType(ty))
  }

  /** The positions below `m` whose token has type `ty`, in increasing order. */
  function PositionsOfType(ts: seq<Token>, ty: TokenType, m: nat): (ps: seq<nat>)
    requires m <= |ts|
    ensures forall k :: 0 <= k < |ps| ==> ps[k] < m && ts[ps[k]].ttype == ty
    ensures forall k, l :: 0 <= k < l < |ps| ==> ps[k] < ps[l]
    ensures forall p: nat :: p < m && ts[p].ttype == ty ==> p in ps
  {
    if m == 0 then []
    else PositionsOfType(ts, ty, m - 1) + (if ts[m - 1].ttype == ty then [m - 1] else [])
  }

  /**
   * Exactly once, in order: the k-th flagged token is the token at the k-th
   * position of type `ty`, and those positions are strictly increasing and
   * are all the positions of that type.
   */
  lemma {:induction false} FlaggedExactlyOnce(ts: seq<Token>, ty: TokenType, m: nat)
    requires m <= |ts|
    ensures |OfType(ts[..m], ty)| == |PositionsOfType(ts, ty, m)|
    ensures forall k :: 0 <= k < |PositionsOfType(ts, ty, m)| ==>
              OfType(ts[..m], ty)[k] == ts[PositionsOfType(ts, ty, m)[k]]
  {
    if m > 0 {
      FlaggedExactlyOnce(ts, ty, m - 1);
      SelectSnoc(ts, m - 1, IsOfType(ty));
      assert ts[..m] == ts[..(m - 1) + 1];
      var flagged, ps := OfType(ts[..m - 1], ty), PositionsOfType(ts, ty, m - 1);
      if ts[m - 1].ttype == ty {
        assert OfType(ts[..m], ty) == flagged + [ts[m - 1]];
        assert PositionsOfType(ts, ty, m) == ps + [m - 1];
      } else {
        assert OfType(ts[..m], ty) == flagged;
        assert PositionsOfType(ts, ty, m) == ps;
      }
    }
  }

  /**
   * The scan of a single-token rule: every token of type `ty` is appended,
   * in order, to a list that starts empty.
   */
  method FlagTokensOfType(ts: seq<Token>, ty: TokenType) returns (flagged: seq<Token>)
    ensures flagged == OfType(ts, ty)
  {
    flagged := [];
    var i := 0;
    while i < |ts|
      invariant i <= |ts|
      invariant flagged == OfType(ts[..i], ty)
    {
      SelectSnoc(ts, i, IsOfType(ty));
      if ts[i].ttype == ty {
        flagged := flagged + [ts[i]];
      }
      i := i + 1;
    }
    assert ts[..i] == ts;
  }

  /**
   * `check_contains_function`: scans from the start and answers true at the
   * first token of type `ty`, false when the stream runs out.
   */
  method ContainsType(ts: seq<Token>, ty: TokenType) returns (found: bool)
    ensures found <==> exists i :: 0 <= i < |ts| && ts[i].ttype == ty
  {
    var i := 0;
    while i < |ts|
      invariant i <= |ts|
      invariant forall m :: 0 <= m < i ==> ts[m].ttype != ty
    {
      if ts[i].ttype == ty {
        return true;
      }
      i := i + 1;
    }
    return false;
  }

  /** The existence test agrees with the single-token rule: a type occurs iff its rule has a violator. */
  lemma ContainsIffFlagged(ts: seq<Token>, ty: TokenType)
    ensures (exists i :: 0 <= i < |ts| && ts[i].ttype == ty) <==> OfType(ts, ty) != []
  {
    if OfType(ts, ty) != [] {
      var t := OfType(ts, ty)[0];
      assert t in ts;
      var i :| 0 <= i < |ts| && ts[i] == t;
      assert ts[i].ttype == ty;
    }
    if i :| 0 <= i < |ts| && ts[i].ttype == ty {
      SelectKeeps(ts, IsOfType(ty), ts[i]);
    }
  }

  /** A rule's violators depend on nothing but the stream: a scan of `a + b` flags `a`'s then `b`'s tokens. */
  lemma FlaggedAppend(a: seq<Token>, b: seq<Token>, ty: TokenType)
    ensures OfType(a + b, ty) == OfType(a, ty) + OfType(b, ty)
  {
    SelectAppend(a, b, IsOfType(ty));
  }

  /** Scanning one more token in front. */
  lemma OfTypeCons(t: Token, rest: seq<Token>, ty: TokenType)
    ensures OfType([t] + rest, ty) == (if t.ttype == ty then [t] else []) + OfType(rest, ty)
  {
    assert ([t] + rest)[1..] == rest;
  }

  function Tok(ty: TokenType, text: string, start: int): Token {
    Token(ty, Default, text, start, start + |text| - 1, 1, start)
  }

  /** `<lhs> / 0` starting at `start` (whitespace is not shown: it never has a scanned type). */
  function DivByZero(lhs: string, start: int): seq<Token> {
    [Tok(IntegerLiteral, lhs, start), Tok(Div, "/", start + 2), Tok(IntegerLiteral, "0", start + 4)]
  }

  /** `1 / 0`. */
  function OneDivZero(): seq<Token> {
    DivByZero("1", 0)
  }

  /** `DIVIDE(1, 0)`: a function call, no division operator. */
  function DivideCall(): seq<Token> {
    [Tok(OtherType(1), "DIVIDE", 0), Tok(OpenParens, "(", 6), Tok(IntegerLiteral, "1", 7),
     Tok(OtherType(2), ",", 8), Tok(IntegerLiteral, "0", 10), Tok(OtherType(3), ")", 11)]
  }

  /** A division by zero flags its `/` and nothing else. */
  lemma DivByZeroFlagsOnce(lhs: string, start: int)
    ensures OfType(DivByZero(lhs, start), Div) == [Tok(Div, "/", start + 2)]
  {
    var a := DivByZero(lhs, start);
    OfTypeCons(a[2], [], Div);
    assert a[2..] == [a[2]] + [];
    OfTypeCons(a[1], a[2..], Div);
    assert a[1..] == [a[1]] + a[2..];
    OfTypeCons(a[0], a[1..], Div);
    assert a == [a[0]] + a[1..];
  }

  lemma OneDivZeroFlagsOnce()
    ensures OfType(OneDivZero(), Div) == [OneDivZero()[1]]
  {
    DivByZeroFlagsOnce("1", 0);
  }

  /** `1 / 0` has one violator, the `/`. */
  lemma DivideExampleSingle()
    ensures |OfType(OneDivZero(), Div)| == 1 && OfType(OneDivZero(), Div)[0].text == "/"
  {
    OneDivZeroFlagsOnce();
  }

  /** A middle part with nothing to flag leaves the two sides' violators side by side. */
  lemma FlaggedAroundNone(a: seq<Token>, mid: seq<Token>, b: seq<Token>, ty: TokenType)
    requires OfType(mid, ty) == []
    ensures OfType(a + mid + b, ty) == OfType(a, ty) + OfType(b, ty)
  {
    FlaggedAppend(a, mid, ty);
    FlaggedAppend(a + mid, b, ty);
  }

  lemma PairDisplay(x: Token, y: Token)
    ensures [x] + [y] == [x, y]
  {
  }

  /** `1 / 0 + 2 / 0` has two violators, its two `/` tokens, in order. */
  lemma DivideExampleTwice()
    ensures OfType(DivByZero("1", 0) + [Tok(Plus, "+", 6)] + DivByZero("2", 8), Div) ==
            [Tok(Div, "/", 2), Tok(Div, "/", 10)]
  {
    var plus := Tok(Plus, "+", 6);
    OfTypeCons(plus, [], Div);
    DivByZeroFlagsOnce("1", 0);
    DivByZeroFlagsOnce("2", 8);
    FlaggedAroundNone(DivByZero("1", 0), [plus], DivByZero("2", 8), Div);
    PairDisplay(Tok(Div, "/", 2), Tok(Div, "/", 10));
  }

  /** `DIVIDE(1, 0)` has none. */
  lemma DivideExampleCall()
    ensures OfType(DivideCall(), Div) == []
  {
    var ts := DivideCall();
    assert forall i :: 0 <= i < |ts| ==> ts[i].ttype != Div;
    NoneOfType(ts, Div);
  }

  /** A stream without a token of type `ty` flags nothing. */
  lemma {:induction false} NoneOfType(ts: seq<Token>, ty: TokenType)
    requires forall i :: 0 <= i < |ts| ==> ts[i].ttype != ty
    ensures OfType(ts, ty) == []
  {
    if ts != [] {
      NoneOfType(ts[1..], ty);
    }
  }
}
