/**
 * What the reference classifier guarantees across the whole stream: every
 * column or measure token yields exactly one artifact reference, qualified
 * or not, and every table-like token that is neither a declared name nor
 * the table of a pair lands in exactly one of the table, variable and
 * function lists.
 */
module ReferenceProperties {
  import opened Tokens
  import opened Wrappers
  import opened DaxReferences
  import opened ReferenceClassifier

  /** How often position `x` occurs in `s`. */
  function Count(s: seq<nat>, x: nat): nat {
    if s == [] then 0 else Count(s[..|s| - 1], x) + if s[|s| - 1] == x then 1 else 0
  }

  lemma CountSnoc(s: seq<nat>, y: nat, x: nat)
    ensures Count(s + [y], x) == Count(s, x) + if x == y then 1 else 0
  {
    assert (s + [y])[..|s|] == s;
  }

  lemma {:induction false} CountIsMultiplicity(s: seq<nat>, x: nat)
    ensures Count(s, x) == multiset(s)[x]
  {
    if s != [] {
      var init := s[..|s| - 1];
      CountIsMultiplicity(init, x);
      assert s == init + [s[|s| - 1]];
      assert multiset(s) == multiset(init) + multiset{s[|s| - 1]};
    }
  }

  lemma {:induction false} CountAppend(a: seq<nat>, b: seq<nat>, x: nat)
    ensures Count(a + b, x) == Count(a, x) + Count(b, x)
    decreases |b|
  {
    if b != [] {
      var init := b[..|b| - 1];
      CountAppend(a, init, x);
      assert a + b == (a + init) + [b[|b| - 1]];
      CountSnoc(a + init, b[|b| - 1], x);
      assert b == init + [b[|b| - 1]];
      CountSnoc(init, b[|b| - 1], x);
    } else {
      assert a + b == a;
    }
  }

  /** Two position lists in which every position occurs equally often have the same length. */
  lemma SameCountsSameLength(a: seq<nat>, b: seq<nat>)
    requires forall x: nat :: Count(a, x) == Count(b, x)
    ensures multiset(a) == multiset(b) && |a| == |b|
  {
    forall x: nat
      ensures multiset(a)[x] == multiset(b)[x]
    {
      CountIsMultiplicity(a, x);
      CountIsMultiplicity(b, x);
    }
    assert multiset(a) == multiset(b);
    assert |a| == |multiset(a)|;
    assert |b| == |multiset(b)|;
  }

  // ---------------------------------------------------------------------------
  // Positions behind the artifact references

  /** The positions of the columns paired by table-like tokens before `m`, in pass-1 order. */
  function QualifiedColumnsUpTo(c: seq<Token>, m: nat): (r: seq<nat>)
    requires m <= |c|
    ensures forall k :: 0 <= k < |r| ==> r[k] < |c|
  {
    if m == 0 then []
    else
      QualifiedColumnsUpTo(c, m - 1) +
      (match PairedColumn(c, m - 1)
       case Some(j) => [j]
       case None => [])
  }

  /** The positions of the unpaired columns before `m`, in order. */
  function StandaloneColumnsUpTo(c: seq<Token>, m: nat): (r: seq<nat>)
    requires m <= |c|
    ensures forall k :: 0 <= k < |r| ==> r[k] < m
  {
    if m == 0 then []
    else StandaloneColumnsUpTo(c, m - 1) + (if IsStandalone(c, m - 1) then [m - 1] else [])
  }

  /** The position each artifact reference was read from, in the order the references are emitted. */
  function ArtifactColumns(c: seq<Token>): (r: seq<nat>)
    ensures forall k :: 0 <= k < |r| ==> r[k] < |c|
  {
    QualifiedColumnsUpTo(c, |c|) + StandaloneColumnsUpTo(c, |c|)
  }

  /** The positions of all column and measure tokens before `m`, in order. */
  function ColumnPositionsUpTo(c: seq<Token>, m: nat): (r: seq<nat>)
    requires m <= |c|
    ensures forall k :: 0 <= k < |r| ==> r[k] < m
  {
    if m == 0 then []
    else ColumnPositionsUpTo(c, m - 1) + (if IsColumn(c[m - 1]) then [m - 1] else [])
  }

  lemma {:induction false} QualifiedLink(c: seq<Token>, m: nat)
    requires m <= |c|
    ensures |QualifiedUpTo(c, m)| == |QualifiedColumnsUpTo(c, m)|
    ensures forall k :: 0 <= k < |QualifiedUpTo(c, m)| ==>
              QualifiedUpTo(c, m)[k].artifactToken == c[QualifiedColumnsUpTo(c, m)[k]] &&
              PairingTable(c, QualifiedColumnsUpTo(c, m)[k]).Some? &&
              QualifiedUpTo(c, m)[k] ==
                QualifiedRef(c, PairingTable(c, QualifiedColumnsUpTo(c, m)[k]).value, QualifiedColumnsUpTo(c, m)[k])
  {
    if m > 0 {
      QualifiedLink(c, m - 1);
      match PairedColumn(c, m - 1)
      case Some(j) => PairingIsMutual(c, m - 1, j);
      case None =>
    }
  }

  lemma {:induction false} StandaloneLink(c: seq<Token>, m: nat)
    requires m <= |c|
    ensures |StandaloneUpTo(c, m)| == |StandaloneColumnsUpTo(c, m)|
    ensures forall k :: 0 <= k < |StandaloneUpTo(c, m)| ==>
              StandaloneUpTo(c, m)[k].artifactToken == c[StandaloneColumnsUpTo(c, m)[k]] &&
              StandaloneUpTo(c, m)[k] == StandaloneRef(c, StandaloneColumnsUpTo(c, m)[k])
  {
    if m > 0 {
      StandaloneLink(c, m - 1);
    }
  }

  /** The k-th artifact reference carries the token at the k-th of `ArtifactColumns(c)`. */
  lemma ArtifactsAtColumns(c: seq<Token>)
    ensures |ArtifactReferences(c)| == |ArtifactColumns(c)|
    ensures forall k :: 0 <= k < |ArtifactColumns(c)| ==>
              ArtifactReferences(c)[k].artifactToken == c[ArtifactColumns(c)[k]]
  {
    QualifiedLink(c, |c|);
    StandaloneLink(c, |c|);
  }

  // ---------------------------------------------------------------------------
  // Counting

  lemma {:induction false} QualifiedCount(c: seq<Token>, m: nat, j: nat)
    requires m <= |c| && j < |c|
    ensures Count(QualifiedColumnsUpTo(c, m), j) ==
            if PairingTable(c, j).Some? && PairingTable(c, j).value < m then 1 else 0
  {
    if m > 0 {
      QualifiedCount(c, m - 1, j);
      var pt := PairingTable(c, j);
      PairedBelow(c, m, j, pt);
      var prev := QualifiedColumnsUpTo(c, m - 1);
      match PairedColumn(c, m - 1)
      case Some(j0) =>
        assert QualifiedColumnsUpTo(c, m) == prev + [j0];
        CountSnoc(prev, j0, j);
      case None =>
        assert QualifiedColumnsUpTo(c, m) == prev;
    }
  }

  /** The column `j`, paired by `pt`, is paired below `m` iff below `m - 1` or by the token at `m - 1`, and not both. */
  lemma PairedBelow(c: seq<Token>, m: nat, j: nat, pt: Option<nat>)
    requires 0 < m <= |c| && j < |c| && pt == PairingTable(c, j)
    ensures (pt.Some? && pt.value < m) <==> (pt.Some? && pt.value < m - 1) || PairedColumn(c, m - 1) == Some(j)
    ensures !((pt.Some? && pt.value < m - 1) && PairedColumn(c, m - 1) == Some(j))
  {
    PairingIsMutual(c, m - 1, j);
  }

  lemma {:induction false} StandaloneCount(c: seq<Token>, m: nat, j: nat)
    requires m <= |c| && j < |c|
    ensures Count(StandaloneColumnsUpTo(c, m), j) == if j < m && IsStandalone(c, j) then 1 else 0
  {
    if m > 0 {
      StandaloneCount(c, m - 1, j);
      var prev := StandaloneColumnsUpTo(c, m - 1);
      if IsStandalone(c, m - 1) {
        assert StandaloneColumnsUpTo(c, m) == prev + [m - 1];
        CountSnoc(prev, m - 1, j);
      } else {
        assert StandaloneColumnsUpTo(c, m) == prev;
      }
    }
  }

  lemma {:induction false} ColumnCount(c: seq<Token>, m: nat, j: nat)
    requires m <= |c| && j < |c|
    ensures Count(ColumnPositionsUpTo(c, m), j) == if j < m && IsColumn(c[j]) then 1 else 0
  {
    if m > 0 {
      ColumnCount(c, m - 1, j);
      var prev := ColumnPositionsUpTo(c, m - 1);
      if IsColumn(c[m - 1]) {
        assert ColumnPositionsUpTo(c, m) == prev + [m - 1];
        CountSnoc(prev, m - 1, j);
      } else {
        assert ColumnPositionsUpTo(c, m) == prev;
      }
    }
  }

  /** A position beyond every element of `s` does not occur in it. */
  lemma {:induction false} AbsentBeyond(s: seq<nat>, bound: nat, x: nat)
    requires forall k :: 0 <= k < |s| ==> s[k] < bound
    requires bound <= x
    ensures Count(s, x) == 0
    decreases |s|
  {
    if s != [] {
      AbsentBeyond(s[..|s| - 1], bound, x);
    }
  }

  /**
   * Every column or measure token yields exactly one artifact reference,
   * and nothing else yields one: the positions the references are read
   * from are the column positions, each exactly once.
   */
  lemma EveryColumnOnce(c: seq<Token>)
    ensures forall x: nat :: Count(ArtifactColumns(c), x) == Count(ColumnPositionsUpTo(c, |c|), x)
    ensures multiset(ArtifactColumns(c)) == multiset(ColumnPositionsUpTo(c, |c|))
    ensures |ArtifactReferences(c)| == |ColumnPositionsUpTo(c, |c|)|
  {
    var a := ArtifactColumns(c);
    var q := QualifiedColumnsUpTo(c, |c|);
    var s := StandaloneColumnsUpTo(c, |c|);
    var cols := ColumnPositionsUpTo(c, |c|);
    forall x: nat
      ensures Count(a, x) == Count(cols, x)
    {
      CountAppend(q, s, x);
      if x < |c| {
        QualifiedCount(c, |c|, x);
        StandaloneCount(c, |c|, x);
        ColumnCount(c, |c|, x);
      } else {
        AbsentBeyond(a, |c|, x);
        AbsentBeyond(cols, |c|, x);
      }
    }
    SameCountsSameLength(a, cols);
    ArtifactsAtColumns(c);
  }

  // ---------------------------------------------------------------------------
  // Pass 3

  /** The positions before `m` classified as `kind`, in order. */
  function KindPositionsUpTo(c: seq<Token>, declared: set<nat>, varNames: seq<string>, kind: SimpleKind, m: nat): (r: seq<nat>)
    requires m <= |c|
    ensures forall k :: 0 <= k < |r| ==> r[k] < m
  {
    if m == 0 then []
    else
      KindPositionsUpTo(c, declared, varNames, kind, m - 1) +
      (if KindAt(c, declared, varNames, m - 1) == Some(kind) then [m - 1] else [])
  }

  lemma {:induction false} KindLink(c: seq<Token>, declared: set<nat>, varNames: seq<string>, kind: SimpleKind, m: nat)
    requires m <= |c|
    ensures |KindUpTo(c, declared, varNames, kind, m)| == |KindPositionsUpTo(c, declared, varNames, kind, m)|
    ensures forall k :: 0 <= k < |KindUpTo(c, declared, varNames, kind, m)| ==>
              KindUpTo(c, declared, varNames, kind, m)[k] == SimpleRef(c, KindPositionsUpTo(c, declared, varNames, kind, m)[k])
  {
    if m > 0 {
      KindLink(c, declared, varNames, kind, m - 1);
    }
  }

  lemma {:induction false} KindCount(c: seq<Token>, declared: set<nat>, varNames: seq<string>, kind: SimpleKind, m: nat, i: nat)
    requires m <= |c| && i < |c|
    ensures Count(KindPositionsUpTo(c, declared, varNames, kind, m), i) ==
            if i < m && KindAt(c, declared, varNames, i) == Some(kind) then 1 else 0
  {
    if m > 0 {
      KindCount(c, declared, varNames, kind, m - 1, i);
      var prev := KindPositionsUpTo(c, declared, varNames, kind, m - 1);
      if KindAt(c, declared, varNames, m - 1) == Some(kind) {
        assert KindPositionsUpTo(c, declared, varNames, kind, m) == prev + [m - 1];
        CountSnoc(prev, m - 1, i);
      } else {
        assert KindPositionsUpTo(c, declared, varNames, kind, m) == prev;
      }
    }
  }

  /** How often the token at `i` occurs among the `kind` references. */
  function Occurrences(c: seq<Token>, declared: set<nat>, varNames: seq<string>, kind: SimpleKind, i: nat): nat
    requires i < |c|
  {
    Count(KindPositionsUpTo(c, declared, varNames, kind, |c|), i)
  }

  /**
   * Pass 3 is a partition: a table-like token that is not a declared name
   * and not the table of a pair occurs in exactly one of the three lists,
   * every other token in none; the variable list takes exactly the tokens
   * whose cleaned name is declared, the function list the other
   * TABLE_OR_VARIABLE tokens followed by `(`, the table list the rest.
   */
  lemma SimpleReferencesPartition(c: seq<Token>, declared: set<nat>, varNames: seq<string>, i: nat)
    requires i < |c|
    ensures var counted := IsTableLike(c[i]) && i !in declared && PairedColumn(c, i).None?;
      Occurrences(c, declared, varNames, TableRef, i) + Occurrences(c, declared, varNames, VariableRef, i) +
      Occurrences(c, declared, varNames, FunctionRef, i) == (if counted then 1 else 0)
    ensures var counted := IsTableLike(c[i]) && i !in declared && PairedColumn(c, i).None?;
      Occurrences(c, declared, varNames, VariableRef, i) == 1 <==>
        counted && c[i].ttype == TableOrVariable && CleanName(c[i].text) in varNames
    ensures var counted := IsTableLike(c[i]) && i !in declared && PairedColumn(c, i).None?;
      Occurrences(c, declared, varNames, FunctionRef, i) == 1 <==>
        counted && c[i].ttype == TableOrVariable && CleanName(c[i].text) !in varNames &&
        i + 1 < |c| && c[i + 1].ttype == OpenParens
  {
    KindCount(c, declared, varNames, TableRef, |c|, i);
    KindCount(c, declared, varNames, VariableRef, |c|, i);
    KindCount(c, declared, varNames, FunctionRef, |c|, i);
  }
}
