/**
 * The variable declarator: a lexical scan for `VAR name = expression`
 * bindings over the code- and keyword-channel tokens. A binding's expression
 * runs up to the next VAR keyword, the next RETURN or the end of the stream;
 * there is no parse tree and no notion of nesting.
 */
module VariableDeclarator {
  import opened Tokens
  import opened Wrappers

  /** A VAR token, or any token whose text is `var` in any letter case. */
  predicate IsVarKeyword(t: Token) {
    t.ttype == Var || IsVarText(t.text)
  }

  /** The text spells `var` in any letter case. */
  predicate IsVarText(text: string) {
    |text| == 3 && UpperChar(text[0]) == 'V' && UpperChar(text[1]) == 'A' && UpperChar(text[2]) == 'R'
  }

  /** The spelled-out test is Python's `text.upper() == 'VAR'`. */
  lemma IsVarTextIsUpperVar(text: string)
    ensures IsVarText(text) <==> Upper(text) == "VAR"
  {
    if Upper(text) == "VAR" {
      assert Upper(text)[0] == 'V' && Upper(text)[1] == 'A' && Upper(text)[2] == 'R';
    }
  }

  /** The name search gives up at `=`, VAR or RETURN. */
  predicate StopsNameSearch(t: Token) {
    t.ttype == Assignment || t.ttype == Var || t.ttype == Return
  }

  predicate IsNameToken(t: Token) {
    t.ttype == TableOrVariable || t.ttype == Table
  }

  /** A binding's expression ends before a VAR keyword or a RETURN. */
  predicate EndsBinding(t: Token) {
    IsVarKeyword(t) || t.ttype == Return
  }

  /** The first position at or after `p` that stops the name search, or `|c|`. */
  function StopFrom(c: seq<Token>, p: nat): (r: nat)
    requires p <= |c|
    ensures p <= r <= |c| && (r < |c| ==> StopsNameSearch(c[r]))
    ensures forall m :: p <= m < r ==> !StopsNameSearch(c[m])
    decreases |c| - p
  {
    if p == |c| || StopsNameSearch(c[p]) then p else StopFrom(c, p + 1)
  }

  /** The declared name's position: the first name token from `p` on that comes before the search stops. */
  function NameFrom(c: seq<Token>, p: nat): (r: Option<nat>)
    requires p <= |c|
    ensures r.Some? ==> p <= r.value < StopFrom(c, p) && IsNameToken(c[r.value])
    ensures r.Some? ==> forall m :: p <= m < r.value ==> !IsNameToken(c[m])
    ensures r.None? ==> forall m :: p <= m < StopFrom(c, p) ==> !IsNameToken(c[m])
    decreases |c| - p
  {
    if p == |c| || StopsNameSearch(c[p]) then None
    else if IsNameToken(c[p]) then Some(p)
    else NameFrom(c, p + 1)
  }

  /** The first position at or after `k` that ends a binding, or `|c|`. */
  function BoundaryFrom(c: seq<Token>, k: nat): (r: nat)
    requires k <= |c|
    ensures k <= r <= |c| && (r < |c| ==> EndsBinding(c[r]))
    ensures forall m :: k <= m < r ==> !EndsBinding(c[m])
    decreases |c| - k
  {
    if k == |c| || EndsBinding(c[k]) then k else BoundaryFrom(c, k + 1)
  }

  /** Where the expression of the binding opened at `i` starts: after the name (or the keyword) and an optional `=`. */
  function ExprStart(c: seq<Token>, i: nat): (j: nat)
    requires i < |c|
    ensures i < j <= |c|
  {
    var name := NameFrom(c, i + 1);
    var j0 := if name.Some? then name.value + 1 else i + 1;
    if j0 < |c| && c[j0].ttype == Assignment then j0 + 1 else j0
  }

  /** A recorded variable: cleaned name, name and keyword positions, and the last expression token's position. */
  datatype Declaration = Declaration(name: string, nameIndex: nat, keywordIndex: nat, lastIndex: Option<nat>)

  /** The last position of the range from `j` up to `k`, if the range is not empty. */
  function LastBefore(j: nat, k: nat): Option<nat> {
    if k > j then Some(k - 1) else None
  }

  /** The variable recorded for the VAR keyword at `i` whose name search found `nameIndex`. */
  function DeclAt(c: seq<Token>, i: nat, nameIndex: nat): Declaration
    requires i < |c| && nameIndex < |c|
  {
    var j := ExprStart(c, i);
    var k := BoundaryFrom(c, j);
    Declaration(CleanName(c[nameIndex].text), nameIndex, i, LastBefore(j, k))
  }

  /** The variables the scan records from position `i` on, in order. */
  function DeclarationsFrom(c: seq<Token>, i: nat): seq<Declaration>
    requires i <= |c|
    decreases |c| - i
  {
    if i == |c| then []
    else if !IsVarKeyword(c[i]) then DeclarationsFrom(c, i + 1)
    else
      var name := NameFrom(c, i + 1);
      (if name.Some? then [DeclAt(c, i, name.value)] else []) + DeclarationsFrom(c, BoundaryFrom(c, ExprStart(c, i)))
  }

  function Declarations(c: seq<Token>): seq<Declaration> {
    DeclarationsFrom(c, 0)
  }

  /** What every recorded variable satisfies, read off the token stream alone. */
  predicate WellFormed(c: seq<Token>, d: Declaration) {
    d.keywordIndex < d.nameIndex < |c| &&
    IsVarKeyword(c[d.keywordIndex]) &&
    NameFrom(c, d.keywordIndex + 1) == Some(d.nameIndex) &&
    d.name == CleanName(c[d.nameIndex].text) &&
    BindingLast(c, ExprStart(c, d.keywordIndex), d.lastIndex)
  }

  /**
   * `last` is the last token of the binding expression starting at `j`:
   * none when the expression is empty, otherwise a token that does not end
   * a binding and is followed by the end or by a token that does.
   */
  predicate BindingLast(c: seq<Token>, j: nat, last: Option<nat>)
    requires j <= |c|
  {
    match last
    case None => j == |c| || EndsBinding(c[j])
    case Some(l) => j <= l < |c| && !EndsBinding(c[l]) && (l + 1 == |c| || EndsBinding(c[l + 1]))
  }

  /** Scans for the declared name after the VAR keyword at `i`. */
  method FindVariableName(c: seq<Token>, i: nat) returns (name: Option<nat>)
    requires i < |c|
    ensures name == NameFrom(c, i + 1)
  {
    var p := i + 1;
    while p < |c| && !StopsNameSearch(c[p])
      invariant i + 1 <= p <= |c|
      invariant NameFrom(c, p) == NameFrom(c, i + 1)
    {
      if IsNameToken(c[p]) {
        return Some(p);
      }
      NameFromStep(c, p);
      p := p + 1;
    }
    return None;
  }

  /** A token that neither stops the search nor is a name is passed over. */
  lemma NameFromStep(c: seq<Token>, p: nat)
    requires p < |c| && !StopsNameSearch(c[p]) && !IsNameToken(c[p])
    ensures NameFrom(c, p) == NameFrom(c, p + 1)
  {
  }

  /** Walks from `j` to the next VAR keyword, RETURN or the end, remembering the last token visited. */
  method FindBindingEnd(c: seq<Token>, j: nat) returns (k: nat, last: Option<nat>)
    requires j <= |c|
    ensures k == BoundaryFrom(c, j)
    ensures last == LastBefore(j, k)
  {
    last := None;
    k := j;
    while k < |c| && !EndsBinding(c[k])
      invariant j <= k <= |c|
      invariant BoundaryFrom(c, k) == BoundaryFrom(c, j)
      invariant last == LastBefore(j, k)
    {
      last := Some(k);
      k := k + 1;
    }
  }

  /**
   * Every recorded variable is well formed, and the list is in source order:
   * each binding's name comes before the next binding's keyword.
   */
  lemma {:induction false} DeclarationsFromWellFormed(c: seq<Token>, i: nat)
    requires i <= |c|
    ensures forall d :: d in DeclarationsFrom(c, i) ==> WellFormed(c, d) && i <= d.keywordIndex
    decreases |c| - i
  {
    if i < |c| {
      if !IsVarKeyword(c[i]) {
        DeclarationsFromWellFormed(c, i + 1);
      } else {
        var name := NameFrom(c, i + 1);
        var k := BoundaryFrom(c, ExprStart(c, i));
        DeclarationsFromWellFormed(c, k);
        if name.Some? {
          HeadWellFormed(c, i, name.value);
          assert DeclarationsFrom(c, i) == [DeclAt(c, i, name.value)] + DeclarationsFrom(c, k);
        }
      }
    }
  }

  /** The recorded variables are in source order: each name comes before the next keyword. */
  lemma {:induction false} DeclarationsFromOrdered(c: seq<Token>, i: nat)
    requires i <= |c|
    ensures forall d :: d in DeclarationsFrom(c, i) ==> i <= d.keywordIndex < d.nameIndex
    ensures forall a, b :: 0 <= a < b < |DeclarationsFrom(c, i)| ==>
              DeclarationsFrom(c, i)[a].nameIndex < DeclarationsFrom(c, i)[b].keywordIndex
    decreases |c| - i
  {
    if i < |c| {
      if !IsVarKeyword(c[i]) {
        DeclarationsFromOrdered(c, i + 1);
      } else {
        var name := NameFrom(c, i + 1);
        var k := BoundaryFrom(c, ExprStart(c, i));
        var tail := DeclarationsFrom(c, k);
        DeclarationsFromOrdered(c, k);
        if name.Some? {
          var d := DeclAt(c, i, name.value);
          assert i < d.nameIndex < ExprStart(c, i) <= k;
          OrderedCons(d, tail, i, k);
          assert DeclarationsFrom(c, i) == [d] + tail;
        }
      }
    }
  }

  /** Putting a declaration whose name precedes `k` in front of a list ordered from `k` keeps the list ordered. */
  lemma OrderedCons(d: Declaration, tail: seq<Declaration>, lo: nat, k: nat)
    requires lo <= d.keywordIndex < d.nameIndex < k
    requires forall e :: e in tail ==> k <= e.keywordIndex < e.nameIndex
    requires forall a, b :: 0 <= a < b < |tail| ==> tail[a].nameIndex < tail[b].keywordIndex
    ensures forall e :: e in [d] + tail ==> lo <= e.keywordIndex < e.nameIndex
    ensures forall a, b :: 0 <= a < b < |[d] + tail| ==> ([d] + tail)[a].nameIndex < ([d] + tail)[b].keywordIndex
  {
    var all := [d] + tail;
    forall a, b | 0 <= a < b < |all|
      ensures all[a].nameIndex < all[b].keywordIndex
    {
      assert all[b] == tail[b - 1] && tail[b - 1] in tail;
      if a > 0 {
        assert all[a] == tail[a - 1];
      }
    }
  }

  /** The token before the boundary is the last token of the binding expression. */
  lemma BoundaryGivesLast(c: seq<Token>, j: nat)
    requires j <= |c|
    ensures var k := BoundaryFrom(c, j);
            BindingLast(c, j, LastBefore(j, k))
  {
    var k := BoundaryFrom(c, j);
    if k > j {
      assert !EndsBinding(c[k - 1]);
    }
  }

  /** The fields of the variable recorded for the VAR keyword at `i`. */
  lemma DeclAtFields(c: seq<Token>, i: nat, p: nat)
    requires i < |c| && NameFrom(c, i + 1) == Some(p)
    ensures var j := ExprStart(c, i);
            var k := BoundaryFrom(c, j);
            DeclAt(c, i, p) == Declaration(CleanName(c[p].text), p, i, LastBefore(j, k)) &&
            i < p < j
    ensures var j := ExprStart(c, i);
            var k := BoundaryFrom(c, j);
            DeclAt(c, i, p).keywordIndex == i && DeclAt(c, i, p).nameIndex == p &&
            DeclAt(c, i, p).name == CleanName(c[p].text) &&
            DeclAt(c, i, p).lastIndex == LastBefore(j, k)
  {
  }

  /** The variable recorded for a VAR keyword is well formed and its name comes before the binding's end. */
  lemma HeadWellFormed(c: seq<Token>, i: nat, p: nat)
    requires i < |c| && IsVarKeyword(c[i]) && NameFrom(c, i + 1) == Some(p)
    ensures WellFormed(c, DeclAt(c, i, p))
    ensures p < BoundaryFrom(c, ExprStart(c, i))
  {
    var j := ExprStart(c, i);
    var k := BoundaryFrom(c, j);
    var last := LastBefore(j, k);
    BoundaryGivesLast(c, j);
    DeclAtFields(c, i, p);
    WellFormedOf(c, DeclAt(c, i, p), i, p, last, j);
  }

  /** A declaration with these parts is well formed. */
  lemma WellFormedOf(c: seq<Token>, d: Declaration, i: nat, p: nat, last: Option<nat>, j: nat)
    requires d.keywordIndex == i && d.nameIndex == p && d.lastIndex == last
    requires i < p < |c| && IsVarKeyword(c[i]) && NameFrom(c, i + 1) == Some(p)
    requires d.name == CleanName(c[p].text)
    requires j == ExprStart(c, i) && BindingLast(c, j, last)
    ensures WellFormed(c, d)
  {
  }

  lemma DeclarationsWellFormed(c: seq<Token>)
    ensures forall d :: d in Declarations(c) ==> WellFormed(c, d)
    ensures forall a, b :: 0 <= a < b < |Declarations(c)| ==>
              Declarations(c)[a].keywordIndex < Declarations(c)[a].nameIndex < Declarations(c)[b].keywordIndex
  {
    DeclarationsFromWellFormed(c, 0);
    DeclarationsFromOrdered(c, 0);
    forall a | 0 <= a < |Declarations(c)|
      ensures Declarations(c)[a].keywordIndex < Declarations(c)[a].nameIndex
    {
      assert Declarations(c)[a] in Declarations(c);
    }
  }

  /** No VAR-typed token lies inside the header or expression of a binding opened at `i`. */
  lemma NoVarTokenSkipped(c: seq<Token>, i: nat, q: nat)
    requires i < q < |c| && IsVarKeyword(c[i])
    requires q < BoundaryFrom(c, ExprStart(c, i))
    ensures c[q].ttype != Var
  {
    var name := NameFrom(c, i + 1);
    var j := ExprStart(c, i);
    var j0 := if name.Some? then name.value + 1 else i + 1;
    assert j == j0 || (j == j0 + 1 && c[j0].ttype == Assignment);
    if q >= j {
      assert !EndsBinding(c[q]);
    } else if q == j0 {
      assert c[q].ttype == Assignment;
    } else {
      assert name.Some? && q <= name.value;
      if q < name.value {
        assert !StopsNameSearch(c[q]);
      } else {
        assert IsNameToken(c[q]);
      }
    }
  }

  /**
   * One variable per VAR token: a VAR-typed token is the keyword of a
   * recorded variable exactly when a name token follows it before the next
   * `=`, VAR or RETURN.
   */
  lemma {:induction false} VarTokenDeclaresFrom(c: seq<Token>, i: nat, q: nat)
    requires i <= q < |c| && c[q].ttype == Var
    ensures NameFrom(c, q + 1).Some? <==> exists d :: d in DeclarationsFrom(c, i) && d.keywordIndex == q
    decreases |c| - i
  {
    DeclarationsFromOrdered(c, i);
    if !IsVarKeyword(c[i]) {
      assert i != q;
      VarTokenDeclaresFrom(c, i + 1, q);
    } else {
      var name := NameFrom(c, i + 1);
      var k := BoundaryFrom(c, ExprStart(c, i));
      var head := if name.Some? then [DeclAt(c, i, name.value)] else [];
      assert DeclarationsFrom(c, i) == head + DeclarationsFrom(c, k);
      DeclarationsFromOrdered(c, k);
      if i == q {
        if name.Some? {
          assert head[0] in DeclarationsFrom(c, i);
        }
      } else {
        if q < k {
          NoVarTokenSkipped(c, i, q);
        }
        VarTokenDeclaresFrom(c, k, q);
      }
    }
  }

  lemma VarTokenDeclares(c: seq<Token>, q: nat)
    requires q < |c| && c[q].ttype == Var
    ensures NameFrom(c, q + 1).Some? <==> exists d :: d in Declarations(c) && d.keywordIndex == q
  {
    VarTokenDeclaresFrom(c, 0, q);
  }
}
