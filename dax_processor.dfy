/**
 * DAXProcessor: the older stream-based analyser. Each method restarts the
 * lexer and reads it to the end, so each is a read-only scan of the token
 * stream and calls do not affect one another. Texts are returned raw:
 * quotes and brackets are kept.
 */
module DaxProcessors {
  import opened Tokens
  import Comments
  import TokenScans
  import ReferenceClassifier
  import ReferenceProperties

  /** A `(table text, column text)` pair. */
  type Pair = (string, string)

  /** The text of every column or measure token, in order. */
  function ColumnTexts(ts: seq<Token>): seq<string> {
    Texts(TokenScans.OfType(ts, ColumnOrMeasure))
  }

  /** One step of the column scan: the list grows by the text of the token examined, if a column. */
  lemma ColumnTextsSnoc(ts: seq<Token>, i: nat)
    requires i < |ts|
    ensures ColumnTexts(ts[..i + 1]) == ColumnTexts(ts[..i]) + (if ts[i].ttype == ColumnOrMeasure then [ts[i].text] else [])
  {
    SelectTextsSnoc(ts, i, TokenScans.IsOfType(ColumnOrMeasure));
  }

  /** Where the column of a TABLE at `p` must be: the next token, or the one after a `(`. */
  function ColumnAfter(ts: seq<Token>, p: nat): (q: nat)
    requires p < |ts|
    ensures p < q <= p + 2
  {
    if p + 1 < |ts| && ts[p + 1].ttype == OpenParens then p + 2 else p + 1
  }

  /** A TABLE at `i` with its column where `ColumnAfter` looks, giving the pair `pr`. */
  predicate PairAt(ts: seq<Token>, i: nat, pr: Pair) {
    i < |ts| && ts[i].ttype == Table &&
    var q := ColumnAfter(ts, i);
    q < |ts| && ts[q].ttype == ColumnOrMeasure && pr == (ts[i].text, ts[q].text)
  }

  /** Where the cursor goes from `p`: past the token examined after a TABLE, else to the next token. */
  function Next(ts: seq<Token>, p: nat): (r: nat)
    requires p < |ts|
    ensures p < r
  {
    if ts[p].ttype == Table then ColumnAfter(ts, p) + 1 else p + 1
  }

  /** The pair the cursor emits at `p`, if any. */
  function Emitted(ts: seq<Token>, p: nat): seq<Pair>
    requires p < |ts|
  {
    var q := ColumnAfter(ts, p);
    if ts[p].ttype == Table && q < |ts| && ts[q].ttype == ColumnOrMeasure then [(ts[p].text, ts[q].text)] else []
  }

  /** The pairs the cursor emits from position `p` on. */
  function PairsFrom(ts: seq<Token>, p: nat): seq<Pair>
    decreases |ts| - p
  {
    if p >= |ts| then [] else Emitted(ts, p) + PairsFrom(ts, Next(ts, p))
  }

  /** The cursor scan as the loop runs it: `acc` holds what was emitted before `p`. */
  function ScanFrom(ts: seq<Token>, p: nat, acc: seq<Pair>): seq<Pair>
    decreases |ts| - p
  {
    if p >= |ts| then acc else ScanFrom(ts, Next(ts, p), acc + Emitted(ts, p))
  }

  /** The running scan appends the pairs still ahead to what it holds. */
  lemma {:induction false} ScanFromPairs(ts: seq<Token>, p: nat, acc: seq<Pair>)
    ensures ScanFrom(ts, p, acc) == acc + PairsFrom(ts, p)
    decreases |ts| - p
  {
    if p < |ts| {
      ScanFromPairs(ts, Next(ts, p), acc + Emitted(ts, p));
      AppendAssociative(acc, Emitted(ts, p), PairsFrom(ts, Next(ts, p)));
    } else {
      assert acc + [] == acc;
    }
  }

  /** The cursor started at `p` stops at `i`. */
  ghost predicate Reached(ts: seq<Token>, p: nat, i: nat)
    decreases |ts| - p
  {
    p == i || (p < i && p < |ts| && Reached(ts, Next(ts, p), i))
  }

  lemma {:induction false} ReachedIsAhead(ts: seq<Token>, p: nat, i: nat)
    requires Reached(ts, p, i)
    ensures p <= i
    decreases |ts| - p
  {
  }

  /** Every emitted pair is a TABLE and its column at a position the cursor stops at. */
  lemma {:induction false} EmittedPairsAreReached(ts: seq<Token>, p: nat, pr: Pair)
    requires pr in PairsFrom(ts, p)
    ensures exists i :: Reached(ts, p, i) && PairAt(ts, i, pr)
    decreases |ts| - p
  {
    if pr in Emitted(ts, p) {
      assert Reached(ts, p, p) && PairAt(ts, p, pr);
    } else {
      assert pr in PairsFrom(ts, Next(ts, p));
      EmittedPairsAreReached(ts, Next(ts, p), pr);
      var i :| Reached(ts, Next(ts, p), i) && PairAt(ts, i, pr);
      ReachedIsAhead(ts, Next(ts, p), i);
      assert Reached(ts, p, i);
    }
  }

  /** Every pair at a position the cursor stops at is emitted. */
  lemma {:induction false} ReachedPairsAreEmitted(ts: seq<Token>, p: nat, i: nat, pr: Pair)
    requires Reached(ts, p, i) && PairAt(ts, i, pr)
    ensures pr in PairsFrom(ts, p)
    decreases |ts| - p
  {
    if p != i {
      ReachedPairsAreEmitted(ts, Next(ts, p), i, pr);
    }
  }

  /** The token examined after a TABLE is consumed: the cursor never stops on it. */
  lemma ExaminedTokenIsConsumed(ts: seq<Token>, p: nat)
    requires p < |ts| && ts[p].ttype == Table
    ensures forall i :: p < i <= ColumnAfter(ts, p) ==> !Reached(ts, p, i)
  {
    forall i | p < i <= ColumnAfter(ts, p)
      ensures !Reached(ts, p, i)
    {
      if Reached(ts, p, i) {
        assert Reached(ts, Next(ts, p), i);
        ReachedIsAhead(ts, Next(ts, p), i);
      }
    }
  }

  /** A pair the processor finds is a pair the expression's classifier makes as well. */
  lemma ProcessorPairIsQualified(ts: seq<Token>, i: nat, pr: Pair)
    requires PairAt(ts, i, pr)
    ensures ReferenceClassifier.PairedColumn(ts, i).Some?
    ensures ReferenceClassifier.PairedColumn(ts, i).value == ColumnAfter(ts, i)
  {
  }

  /** The column list is the processor's view of the column positions, in order, text unchanged. */
  lemma ColumnsInOrder(ts: seq<Token>)
    ensures var ps := TokenScans.PositionsOfType(ts, ColumnOrMeasure, |ts|);
            |ColumnTexts(ts)| == |ps| && forall k :: 0 <= k < |ps| ==> ColumnTexts(ts)[k] == ts[ps[k]].text
  {
    TokenScans.FlaggedExactlyOnce(ts, ColumnOrMeasure, |ts|);
    assert ts[..|ts|] == ts;
  }

  lemma {:induction false} SameColumnPositions(c: seq<Token>, m: nat)
    requires m <= |c|
    ensures TokenScans.PositionsOfType(c, ColumnOrMeasure, m) == ReferenceProperties.ColumnPositionsUpTo(c, m)
  {
    if m > 0 {
      SameColumnPositions(c, m - 1);
    }
  }

  /**
   * On the same stream, the processor lists as many columns as the
   * expression's classifier makes artifact references.
   */
  lemma ColumnsMatchArtifacts(c: seq<Token>)
    ensures |ColumnTexts(c)| == |ReferenceClassifier.ArtifactReferences(c)|
  {
    ColumnsInOrder(c);
    SameColumnPositions(c, |c|);
    ReferenceProperties.EveryColumnOnce(c);
  }

  class DaxProcessor {
    const expression: string
    /** The lexed expression, every channel. */
    const tokens: seq<Token>

    /** Keeps the text and the tokens the lexer produces for it. */
    constructor (expression: string, tokens: seq<Token>)
      ensures this.expression == expression && this.tokens == tokens
    {
      this.expression := expression;
      this.tokens := tokens;
    }

    /** The comment texts, in order. */
    method ExtractComments() returns (comments: seq<string>)
      ensures comments == Comments.CommentTexts(tokens)
    {
      comments := Comments.ExtractComments(tokens);
    }

    /** The text without its comments. */
    method RemoveComments() returns (text: string)
      ensures text == Comments.CodeText(tokens)
    {
      text := Comments.RemoveComments(tokens);
    }

    /** The raw text of every column or measure token on any channel, brackets kept, in order. */
    method ExtractColumnsMeasures() returns (columns: seq<string>)
      ensures columns == ColumnTexts(tokens)
    {
      var ts := tokens;
      columns := [];
      var i := 0;
      while i < |ts|
        invariant i <= |ts|
        invariant columns == ColumnTexts(ts[..i])
      {
        ColumnTextsSnoc(ts, i);
        if ts[i].ttype == ColumnOrMeasure {
          columns := columns + [ts[i].text];
        }
        i := i + 1;
      }
      assert ts[..i] == ts;
    }

    /** The cursor scan for `(table, column)` pairs. */
    method ExtractTableColumnReferences() returns (pairs: seq<Pair>)
      ensures pairs == PairsFrom(tokens, 0)
    {
      pairs := ScanTableColumnPairs(tokens);
    }
  }

  /**
   * At a TABLE: reads the next token, skips it if it is `(`, pairs the
   * token it then holds if that is a column, and moves past that token
   * whatever it was.
   */
  method PairAfterTable(ts: seq<Token>, p: nat) returns (emitted: seq<Pair>, next: nat)
    requires p < |ts| && ts[p].ttype == Table
    ensures emitted == Emitted(ts, p) && next == Next(ts, p)
  {
    var tableName := ts[p].text;
    var q := p + 1;
    if q < |ts| && ts[q].ttype == OpenParens {
      q := q + 1;
    }
    emitted := [];
    if q < |ts| && ts[q].ttype == ColumnOrMeasure {
      emitted := [(tableName, ts[q].text)];
    }
    next := q + 1;
  }

  /** The cursor loop of `extract_table_column_references`. */
  method ScanTableColumnPairs(ts: seq<Token>) returns (pairs: seq<Pair>)
    ensures pairs == PairsFrom(ts, 0)
  {
    pairs := [];
    var p := 0;
    while p < |ts|
      invariant ScanFrom(ts, p, pairs) == ScanFrom(ts, 0, [])
      decreases |ts| - p
    {
      if ts[p].ttype == Table {
        var emitted, next := PairAfterTable(ts, p);
        pairs := pairs + emitted;
        p := next;
      } else {
        assert pairs + Emitted(ts, p) == pairs;
        p := p + 1;
      }
    }
    ScanFromPairs(ts, 0, []);
    assert [] + PairsFrom(ts, 0) == PairsFrom(ts, 0);
  }

  /** `'A' 'B'[C]`: TABLE TABLE COLUMN. */
  function TableTableColumn(): seq<Token> {
    [Token(Table, Default, "'A'", 0, 2, 1, 0), Token(Table, Default, "'B'", 4, 6, 1, 4),
     Token(ColumnOrMeasure, Default, "[C]", 7, 9, 1, 7)]
  }

  /** The second TABLE is consumed as the token after the first, so the pair it forms with `[C]` is lost. */
  lemma TableTableColumnYieldsNothing()
    ensures PairsFrom(TableTableColumn(), 0) == []
    ensures PairAt(TableTableColumn(), 1, ("'B'", "[C]"))
  {
    var ts := TableTableColumn();
    assert PairsFrom(ts, 2) == [];
  }
}
