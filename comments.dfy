/**
 * The comment splitter: comment-channel tokens are listed, every other token
 * is kept to rebuild a comment-free text, and the clean form drops the four
 * whitespace characters from that text.
 */
module Comments {
  import opened Tokens

  predicate IsComment(t: Token) {
    t.channel == Comments
  }

  predicate IsNotComment(t: Token) {
    t.channel != Comments
  }

  /** The comment texts of a stream, in order. */
  function CommentTexts(ts: seq<Token>): seq<string> {
    Texts(Select(ts, IsComment))
  }

  /** The stream's text with every comment-channel token dropped. */
  function CodeText(ts: seq<Token>): string {
    Concat(Texts(Select(ts, IsNotComment)))
  }

  /** Lists the text of every comment-channel token, in order. */
  method ExtractComments(ts: seq<Token>) returns (comments: seq<string>)
    ensures comments == CommentTexts(ts)
  {
    comments := [];
    var i := 0;
    while i < |ts|
      invariant 0 <= i <= |ts|
      invariant comments == Texts(Select(ts[..i], IsComment))
    {
      SelectTextsSnoc(ts, i, IsComment);
      if ts[i].channel == Comments {
        comments := comments + [ts[i].text];
      }
      i := i + 1;
    }
    assert ts[..|ts|] == ts;
  }

  /** Concatenates, in order, the text of every token not on the comment channel. */
  method RemoveComments(ts: seq<Token>) returns (text: string)
    ensures text == CodeText(ts)
  {
    var parts: seq<string> := [];
    var i := 0;
    while i < |ts|
      invariant 0 <= i <= |ts|
      invariant parts == Texts(Select(ts[..i], IsNotComment))
    {
      SelectTextsSnoc(ts, i, IsNotComment);
      if ts[i].channel != Comments {
        parts := parts + [ts[i].text];
      }
      i := i + 1;
    }
    assert ts[..|ts|] == ts;
    text := Concat(parts);
  }

  /**
   * Rebuilds a list of texts from the code texts and the comment texts,
   * taking the next one from the list that `fromComments` names.
   */
  function Interleave(fromComments: seq<bool>, code: seq<string>, comments: seq<string>): seq<string>
  {
    if fromComments == [] then []
    else if fromComments[0] then
      (if comments == [] then [] else [comments[0]] + Interleave(fromComments[1..], code, comments[1..]))
    else
      (if code == [] then [] else [code[0]] + Interleave(fromComments[1..], code[1..], comments))
  }

  /** For each token, in order, whether it is a comment. */
  function ChannelFlags(ts: seq<Token>): (r: seq<bool>)
    ensures |r| == |ts|
  {
    if ts == [] then [] else [IsComment(ts[0])] + ChannelFlags(ts[1..])
  }

  /**
   * Splitting loses nothing: putting the comment texts back between the code
   * texts, each at its own token's place, gives the texts of the whole stream.
   */
  lemma {:induction false} SplitRoundTrip(ts: seq<Token>)
    ensures Interleave(ChannelFlags(ts), Texts(Select(ts, IsNotComment)), CommentTexts(ts)) == Texts(ts)
  {
    if ts != [] {
      SplitRoundTrip(ts[1..]);
      if IsComment(ts[0]) {
        CommentFirst(ts);
      } else {
        CodeFirst(ts);
      }
    }
  }

  /** The round trip of a stream that starts with a comment follows from that of its tail. */
  lemma CommentFirst(ts: seq<Token>)
    requires ts != [] && IsComment(ts[0])
    requires var rest := ts[1..];
             Interleave(ChannelFlags(rest), Texts(Select(rest, IsNotComment)), CommentTexts(rest)) == Texts(rest)
    ensures Interleave(ChannelFlags(ts), Texts(Select(ts, IsNotComment)), CommentTexts(ts)) == Texts(ts)
  {
    var rest := ts[1..];
    var code := Texts(Select(rest, IsNotComment));
    var sel := Select(rest, IsComment);
    assert Select(ts, IsNotComment) == [] + Select(rest, IsNotComment) == Select(rest, IsNotComment);
    assert Select(ts, IsComment) == [ts[0]] + sel;
    TextsCons(ts[0], sel);
    var comments := [ts[0].text] + Texts(sel);
    assert comments[0] == ts[0].text && comments[1..] == Texts(sel);
    var flags := ChannelFlags(ts);
    assert flags[0] && flags[1..] == ChannelFlags(rest);
    assert Interleave(flags, code, comments) == [ts[0].text] + Interleave(flags[1..], code, comments[1..]);
  }

  /** The round trip of a stream that starts with a code token follows from that of its tail. */
  lemma CodeFirst(ts: seq<Token>)
    requires ts != [] && !IsComment(ts[0])
    requires var rest := ts[1..];
             Interleave(ChannelFlags(rest), Texts(Select(rest, IsNotComment)), CommentTexts(rest)) == Texts(rest)
    ensures Interleave(ChannelFlags(ts), Texts(Select(ts, IsNotComment)), CommentTexts(ts)) == Texts(ts)
  {
    var rest := ts[1..];
    var comments := CommentTexts(rest);
    var sel := Select(rest, IsNotComment);
    assert Select(ts, IsComment) == [] + Select(rest, IsComment) == Select(rest, IsComment);
    assert Select(ts, IsNotComment) == [ts[0]] + sel;
    TextsCons(ts[0], sel);
    var code := [ts[0].text] + Texts(sel);
    assert code[0] == ts[0].text && code[1..] == Texts(sel);
    var flags := ChannelFlags(ts);
    assert !flags[0] && flags[1..] == ChannelFlags(rest);
    assert Interleave(flags, code, comments) == [ts[0].text] + Interleave(flags[1..], code[1..], comments);
  }

  /** A stream without comments comes back unchanged: the code text is the whole text. */
  lemma {:induction false} NoCommentsUnchanged(ts: seq<Token>)
    requires forall t :: t in ts ==> !IsComment(t)
    ensures CodeText(ts) == Concat(Texts(ts))
    ensures CommentTexts(ts) == []
  {
    if ts != [] {
      assert ts[0] in ts;
      NoCommentsUnchanged(ts[1..]);
      assert Select(ts, IsNotComment) == [ts[0]] + Select(ts[1..], IsNotComment);
      assert Select(ts, IsComment) == Select(ts[1..], IsComment);
    }
  }

  /** The four characters `clean_expression` removes. */
  predicate IsBlank(c: char) {
    c == ' ' || c == '\n' || c == '\r' || c == '\t'
  }

  /** Python's `s.replace(c, "")`. */
  function RemoveChar(s: string, c: char): (r: string)
    ensures |r| <= |s|
  {
    if s == [] then [] else (if s[0] == c then [] else [s[0]]) + RemoveChar(s[1..], c)
  }

  /** The comment-free text with spaces, newlines, carriage returns and tabs removed, one replace at a time. */
  function CleanExpression(noComments: string): string {
    RemoveChar(RemoveChar(RemoveChar(RemoveChar(noComments, ' '), '\n'), '\r'), '\t')
  }

  /** The reference definition: the characters of `s` that are not blank, in order. */
  function NonBlank(s: string): (r: string)
    ensures forall c :: c in r ==> c in s && !IsBlank(c)
  {
    if s == [] then [] else (if IsBlank(s[0]) then [] else [s[0]]) + NonBlank(s[1..])
  }

  lemma {:induction false} RemoveCharAppend(a: string, b: string, c: char)
    ensures RemoveChar(a + b, c) == RemoveChar(a, c) + RemoveChar(b, c)
  {
    if a == [] {
      assert a + b == b;
    } else {
      assert (a + b)[1..] == a[1..] + b;
      RemoveCharAppend(a[1..], b, c);
    }
  }

  /**
   * The chain of four replaces keeps exactly the non-blank characters, in
   * order: the clean text has no blank and nothing else is lost or moved.
   */
  lemma {:induction false} CleanExpressionKeepsNonBlank(s: string)
    ensures CleanExpression(s) == NonBlank(s)
    ensures forall c :: c in CleanExpression(s) ==> !IsBlank(c)
  {
    if s != [] {
      CleanExpressionKeepsNonBlank(s[1..]);
      var head := [s[0]];
      assert s == head + s[1..];
      RemoveCharAppend(head, s[1..], ' ');
      var a1, b1 := RemoveChar(head, ' '), RemoveChar(s[1..], ' ');
      RemoveCharAppend(a1, b1, '\n');
      var a2, b2 := RemoveChar(a1, '\n'), RemoveChar(b1, '\n');
      RemoveCharAppend(a2, b2, '\r');
      var a3, b3 := RemoveChar(a2, '\r'), RemoveChar(b2, '\r');
      RemoveCharAppend(a3, b3, '\t');
      assert RemoveChar(a3, '\t') == if IsBlank(s[0]) then [] else head;
    }
  }

  /** Cleaning twice is cleaning once. */
  lemma CleanExpressionIdempotent(s: string)
    ensures CleanExpression(CleanExpression(s)) == CleanExpression(s)
  {
    CleanExpressionKeepsNonBlank(s);
    CleanExpressionKeepsNonBlank(CleanExpression(s));
    NonBlankFixed(NonBlank(s));
  }

  lemma {:induction false} NonBlankFixed(s: string)
    requires forall c :: c in s ==> !IsBlank(c)
    ensures NonBlank(s) == s
  {
    if s != [] {
      assert s[0] in s;
      NonBlankFixed(s[1..]);
      assert s == [s[0]] + s[1..];
    }
  }
}
