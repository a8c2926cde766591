/**
 * The tokens the DAX lexer emits. The generated lexer itself is not part of
 * this model: a lexed expression is the finite sequence of tokens it yields
 * before EOF, and a token's identity (Python's `is`) is its position in that
 * sequence.
 */
module Tokens {

  /** The token types the analyser inspects; every other type is `OtherType`. */
  datatype TokenType =
    | Table              // TABLE: a quoted or plain table name
    | TableOrVariable    // TABLE_OR_VARIABLE: an identifier that is a table, a variable or a function
    | ColumnOrMeasure    // COLUMN_OR_MEASURE: a bracketed `[name]`
    | OpenParens         // OPEN_PARENS: `(`
    | Assignment         // ASSIGNMENT: `=`
    | Var                // VAR
    | Return             // RETURN
    | Div                // DIV: `/`
    | Plus               // PLUS: `+`
    | Minus              // MINUS: `-`
    | IfError            // IFERROR
    | Intersect          // INTERSECT
    | EvaluateAndLog     // EVALUATEANDLOG
    | Filter             // FILTER
    | IntegerLiteral     // INTEGER_LITERAL
    | RealLiteral        // REAL_LITERAL
    | OtherType(code: int)

  /** Lexer channels: ANTLR's default and hidden channels and the lexer's two extra ones. */
  datatype Channel = Default | Hidden | Keyword | Comments

  /** A lexer token: type, channel, text, character offsets and position. */
  datatype Token = Token(ttype: TokenType, channel: Channel, text: string,
                         start: int, stop: int, line: int, column: int)

  /** The tokens of `ts` that satisfy `keep`, in stream order. */
  function Select(ts: seq<Token>, keep: Token -> bool): (r: seq<Token>)
    ensures |r| <= |ts|
    ensures forall t :: t in r ==> t in ts && keep(t)
  {
    if ts == [] then [] else (if keep(ts[0]) then [ts[0]] else []) + Select(ts[1..], keep)
  }

  /** Selection distributes over concatenation. */
  lemma {:induction false} SelectAppend(a: seq<Token>, b: seq<Token>, keep: Token -> bool)
    ensures Select(a + b, keep) == Select(a, keep) + Select(b, keep)
  {
    if a == [] {
      assert a + b == b;
    } else {
      assert (a + b)[1..] == a[1..] + b;
      SelectAppend(a[1..], b, keep);
    }
  }

  /** A token that the selection drops can be taken out of the stream without changing the selection. */
  lemma SelectSkips(a: seq<Token>, h: Token, b: seq<Token>, keep: Token -> bool)
    requires !keep(h)
    ensures Select(a + [h] + b, keep) == Select(a + b, keep)
  {
    assert Select([h], keep) == [] by {
      assert [h][1..] == [];
    }
    SelectAppend(a + [h], b, keep);
    SelectAppend(a, [h], keep);
    assert Select(a, keep) + [] == Select(a, keep);
    SelectAppend(a, b, keep);
  }

  /** One step of a left-to-right scan: the selection of a prefix grows by at most its last token. */
  lemma SelectSnoc(ts: seq<Token>, i: nat, keep: Token -> bool)
    requires i < |ts|
    ensures Select(ts[..i + 1], keep) == Select(ts[..i], keep) + (if keep(ts[i]) then [ts[i]] else [])
  {
    assert ts[..i + 1] == ts[..i] + [ts[i]];
    SelectAppend(ts[..i], [ts[i]], keep);
  }

  /** Every token of `ts` satisfying `keep` survives the selection. */
  lemma {:induction false} SelectKeeps(ts: seq<Token>, keep: Token -> bool, t: Token)
    requires t in ts && keep(t)
    ensures t in Select(ts, keep)
  {
    if ts[0] != t {
      SelectKeeps(ts[1..], keep, t);
    }
  }

  /** The texts of a token list, in order. */
  function Texts(ts: seq<Token>): (r: seq<string>)
    ensures |r| == |ts| && forall i :: 0 <= i < |ts| ==> r[i] == ts[i].text
  {
    if ts == [] then [] else [ts[0].text] + Texts(ts[1..])
  }

  /** The texts of a concatenation are the concatenated texts. */
  lemma {:induction false} TextsAppend(a: seq<Token>, b: seq<Token>)
    ensures Texts(a + b) == Texts(a) + Texts(b)
  {
    if a == [] {
      assert a + b == b;
    } else {
      assert (a + b)[1..] == a[1..] + b;
      TextsAppend(a[1..], b);
    }
  }

  lemma TextsCons(t: Token, ts: seq<Token>)
    ensures Texts([t] + ts) == [t.text] + Texts(ts)
  {
    assert ([t] + ts)[1..] == ts;
  }

  /** One step of a scan that lists the texts of the tokens it keeps. */
  lemma SelectTextsSnoc(ts: seq<Token>, i: nat, keep: Token -> bool)
    requires i < |ts|
    ensures Texts(Select(ts[..i + 1], keep)) == Texts(Select(ts[..i], keep)) + (if keep(ts[i]) then [ts[i].text] else [])
  {
    SelectSnoc(ts, i, keep);
    var before := Select(ts[..i], keep);
    if keep(ts[i]) {
      TextsAppend(before, [ts[i]]);
      assert Texts([ts[i]]) == [ts[i].text];
    } else {
      assert before + [] == before;
    }
  }

  lemma AppendAssociative<T>(a: seq<T>, b: seq<T>, c: seq<T>)
    ensures (a + b) + c == a + (b + c)
  {
  }

  /** Python's `''.join(parts)`. */
  function Concat(parts: seq<string>): (r: string)
    ensures |parts| == 1 ==> r == parts[0]
  {
    if parts == [] then "" else parts[0] + Concat(parts[1..])
  }

  lemma {:induction false} ConcatAppend(a: seq<string>, b: seq<string>)
    ensures Concat(a + b) == Concat(a) + Concat(b)
  {
    if a == [] {
      assert a + b == b;
    } else {
      assert (a + b)[1..] == a[1..] + b;
      ConcatAppend(a[1..], b);
    }
  }

  /** Python's `str.upper()` restricted to ASCII letters. */
  function UpperChar(c: char): char {
    if 'a' <= c <= 'z' then (c as int - 32) as char else c
  }

  /** Python's `str.lower()` restricted to ASCII letters. */
  function LowerChar(c: char): char {
    if 'A' <= c <= 'Z' then (c as int + 32) as char else c
  }

  function Upper(s: string): (r: string)
    ensures |r| == |s| && forall i :: 0 <= i < |s| ==> r[i] == UpperChar(s[i])
  {
    seq(|s|, i requires 0 <= i < |s| => UpperChar(s[i]))
  }

  function Lower(s: string): (r: string)
    ensures |r| == |s| && forall i :: 0 <= i < |s| ==> r[i] == LowerChar(s[i])
  {
    seq(|s|, i requires 0 <= i < |s| => LowerChar(s[i]))
  }

  /**
   * Removes at most one trailing `close` and then at most one leading `open`,
   * and changes nothing else; the analyser strips table-name quotes and
   * column brackets this way.
   */
  function StripOne(text: string, open: char, close: char): string {
    var t := if |text| > 0 && text[|text| - 1] == close then text[..|text| - 1] else text;
    if |t| > 0 && t[0] == open then t[1..] else t
  }

  /** What `StripOne` drops, case by case; at most one character at each end. */
  lemma StripOneCases(text: string, open: char, close: char)
    ensures var r := StripOne(text, open, close);
            r == text || (|text| >= 1 && (r == text[1..] || r == text[..|text| - 1])) || (|text| >= 2 && r == text[1..|text| - 1])
    ensures |text| >= 2 && text[0] == open && text[|text| - 1] == close ==> StripOne(text, open, close) == text[1..|text| - 1]
    ensures (|text| == 0 || (text[0] != open && text[|text| - 1] != close)) ==> StripOne(text, open, close) == text
    ensures |text| >= 1 && text[0] != open && text[|text| - 1] == close ==> StripOne(text, open, close) == text[..|text| - 1]
    ensures |text| >= 1 && text[0] == open && text[|text| - 1] != close ==> StripOne(text, open, close) == text[1..]
  {
  }

  /** `_clean_name`: drops at most one trailing and one leading single quote. */
  function CleanName(text: string): string {
    StripOne(text, '\'', '\'')
  }

  /** Drops at most one trailing `]` and one leading `[` from an artifact's text. */
  function StripBrackets(text: string): string {
    StripOne(text, '[', ']')
  }

  /** The first position at or after `from` that holds `c`, or `|s|`. */
  function IndexOf(s: string, c: char, from: nat): (k: nat)
    requires from <= |s|
    ensures from <= k <= |s| && (k < |s| ==> s[k] == c)
    ensures forall m :: from <= m < k ==> s[m] != c
    decreases |s| - from
  {
    if from == |s| || s[from] == c then from else IndexOf(s, c, from + 1)
  }
}
