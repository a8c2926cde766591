/**
 * The reference classifier. Over the code- and keyword-channel tokens it
 * runs three ordered passes: it pairs `Table[Column]` (optionally
 * `Table([Column]`), emits every column or measure left unpaired as an
 * unqualified reference, and sorts every remaining table-like identifier
 * into a variable, function or table reference.
 */
module ReferenceClassifier {
  import opened Tokens
  import opened Wrappers
  import opened DaxReferences

  /** The channels the classifier reads: default and keyword. */
  predicate IsCode(t: Token) {
    t.channel == Default || t.channel == Keyword
  }

  function CodeTokens(ts: seq<Token>): seq<Token> {
    Select(ts, IsCode)
  }

  predicate IsTableLike(t: Token) {
    t.ttype == Table || t.ttype == TableOrVariable
  }

  predicate IsColumn(t: Token) {
    t.ttype == ColumnOrMeasure
  }

  // ---------------------------------------------------------------------------
  // Pass 1: qualified pairs

  /** The column a table-like token at `i` pairs with: the next token, or the one after a `(`. */
  function PairedColumn(c: seq<Token>, i: nat): (r: Option<nat>)
    requires i < |c|
    ensures r.Some? ==> IsTableLike(c[i]) && i < r.value <= i + 2 && r.value < |c| && IsColumn(c[r.value])
  {
    if !IsTableLike(c[i]) then None
    else
      var j := if i + 1 < |c| && c[i + 1].ttype == OpenParens then i + 2 else i + 1;
      if j < |c| && IsColumn(c[j]) then Some(j) else None
  }

  /** Read from the column's side: the table-like token that qualifies the column at `j`, if any. */
  function PairingTable(c: seq<Token>, j: nat): (r: Option<nat>)
    requires j < |c|
  {
    if !IsColumn(c[j]) then None
    else if j >= 1 && IsTableLike(c[j - 1]) then Some(j - 1)
    else if j >= 2 && c[j - 1].ttype == OpenParens && IsTableLike(c[j - 2]) then Some(j - 2)
    else None
  }

  /** The two readings agree, so a column is qualified by at most one table token. */
  lemma PairingIsMutual(c: seq<Token>, i: nat, j: nat)
    requires i < |c| && j < |c|
    ensures PairedColumn(c, i) == Some(j) <==> PairingTable(c, j) == Some(i)
  {
  }

  /** A qualified reference: cleaned table name, artifact name without its brackets. */
  function QualifiedRef(c: seq<Token>, i: nat, j: nat): ArtifactReference
    requires i < |c| && j < |c|
  {
    ArtifactReference(CleanName(c[i].text), StripBrackets(c[j].text), c[j], Some(c[i]))
  }

  /** The qualified references formed by table-like tokens before position `m`, in scan order. */
  function QualifiedUpTo(c: seq<Token>, m: nat): seq<ArtifactReference>
    requires m <= |c|
  {
    if m == 0 then []
    else
      QualifiedUpTo(c, m - 1) +
      (match PairedColumn(c, m - 1)
       case Some(j) => [QualifiedRef(c, m - 1, j)]
       case None => [])
  }

  // ---------------------------------------------------------------------------
  // Pass 2: standalone columns and measures

  /** A column or measure that no table token qualifies. */
  predicate IsStandalone(c: seq<Token>, j: nat)
    requires j < |c|
  {
    IsColumn(c[j]) && PairingTable(c, j).None?
  }

  /** An unqualified reference: empty table name, artifact name without its brackets. */
  function StandaloneRef(c: seq<Token>, j: nat): ArtifactReference
    requires j < |c|
  {
    ArtifactReference("", StripBrackets(c[j].text), c[j], None)
  }

  /** The unqualified references for the columns before `m`, in order. */
  function StandaloneUpTo(c: seq<Token>, m: nat): seq<ArtifactReference>
    requires m <= |c|
  {
    if m == 0 then []
    else StandaloneUpTo(c, m - 1) + (if IsStandalone(c, m - 1) then [StandaloneRef(c, m - 1)] else [])
  }

  /** Every artifact reference of the stream: the qualified ones first, then the standalone ones. */
  function ArtifactReferences(c: seq<Token>): seq<ArtifactReference> {
    QualifiedUpTo(c, |c|) + StandaloneUpTo(c, |c|)
  }

  // ---------------------------------------------------------------------------
  // Pass 3: simple references

  datatype SimpleKind = TableRef | VariableRef | FunctionRef

  /**
   * How the token at `i` is classified: declaration names and paired table
   * tokens are skipped; a TABLE token is a table; a TABLE_OR_VARIABLE token
   * is a variable if its cleaned name is declared, else a function if a `(`
   * follows, else a table.
   */
  function KindAt(c: seq<Token>, declared: set<nat>, varNames: seq<string>, i: nat): Option<SimpleKind>
    requires i < |c|
  {
    if i in declared || !IsTableLike(c[i]) || PairedColumn(c, i).Some? then None
    else if c[i].ttype == Table then Some(TableRef)
    else if CleanName(c[i].text) in varNames then Some(VariableRef)
    else if i + 1 < |c| && c[i + 1].ttype == OpenParens then Some(FunctionRef)
    else Some(TableRef)
  }

  function SimpleRef(c: seq<Token>, i: nat): SimpleReference
    requires i < |c|
  {
    SimpleReference(CleanName(c[i].text), c[i])
  }

  /** The references of one kind among the tokens before `m`, in stream order. */
  function KindUpTo(c: seq<Token>, declared: set<nat>, varNames: seq<string>, kind: SimpleKind, m: nat): seq<SimpleReference>
    requires m <= |c|
  {
    if m == 0 then []
    else
      KindUpTo(c, declared, varNames, kind, m - 1) +
      (if KindAt(c, declared, varNames, m - 1) == Some(kind) then [SimpleRef(c, m - 1)] else [])
  }

  function SimpleReferences(c: seq<Token>, declared: set<nat>, varNames: seq<string>, kind: SimpleKind): seq<SimpleReference> {
    KindUpTo(c, declared, varNames, kind, |c|)
  }

  // ---------------------------------------------------------------------------
  // The three passes

  /** The positions of the columns paired by a table token before `i`. */
  ghost predicate UsedColumnsUpTo(c: seq<Token>, used: set<nat>, i: nat) {
    forall j: nat :: j in used <==> j < |c| && PairingTable(c, j).Some? && PairingTable(c, j).value < i
  }

  /** The positions before `i` of the `ty` tokens that open a pair. */
  ghost predicate UsedTablesUpTo(c: seq<Token>, used: set<nat>, ty: TokenType, i: nat)
    requires i <= |c|
  {
    forall t: nat :: t in used <==> t < i && c[t].ttype == ty && PairedColumn(c, t).Some?
  }

  /** What pass 1 has built once it has scanned the tokens before `i`. */
  ghost predicate PairedUpTo(c: seq<Token>, i: nat, qualified: seq<ArtifactReference>, usedColumns: set<nat>,
                             usedTableOrVariable: set<nat>, usedTable: set<nat>)
    requires i <= |c|
  {
    qualified == QualifiedUpTo(c, i) &&
    UsedColumnsUpTo(c, usedColumns, i) &&
    UsedTablesUpTo(c, usedTableOrVariable, TableOrVariable, i) &&
    UsedTablesUpTo(c, usedTable, Table, i)
  }

  /** After a pair with the column at `j` is formed at `i`, `j` is the one new used column. */
  lemma UsedColumnsStepSome(c: seq<Token>, i: nat, j: nat, usedColumns: set<nat>)
    requires i < |c| && UsedColumnsUpTo(c, usedColumns, i)
    requires PairedColumn(c, i) == Some(j)
    ensures UsedColumnsUpTo(c, usedColumns + {j}, i + 1)
  {
    forall k: nat | k < |c|
      ensures PairingTable(c, k) == Some(i) <==> k == j
    {
      PairingIsMutual(c, i, k);
    }
  }

  lemma UsedTablesStepSome(c: seq<Token>, i: nat, ty: TokenType, used: set<nat>, used': set<nat>)
    requires i < |c| && UsedTablesUpTo(c, used, ty, i)
    requires PairedColumn(c, i).Some?
    requires used' == if c[i].ttype == ty then used + {i} else used
    ensures UsedTablesUpTo(c, used', ty, i + 1)
  {
  }

  /** One pass-1 step at a table-like token that forms a pair with the column at `j`. */
  lemma PairedStepSome(c: seq<Token>, i: nat, j: nat,
                       qualified: seq<ArtifactReference>, usedColumns: set<nat>, usedTableOrVariable: set<nat>, usedTable: set<nat>,
                       usedTableOrVariable': set<nat>, usedTable': set<nat>)
    requires i < |c| && PairedUpTo(c, i, qualified, usedColumns, usedTableOrVariable, usedTable)
    requires PairedColumn(c, i) == Some(j)
    requires usedTableOrVariable' == if c[i].ttype == TableOrVariable then usedTableOrVariable + {i} else usedTableOrVariable
    requires usedTable' == if c[i].ttype == Table then usedTable + {i} else usedTable
    ensures PairedUpTo(c, i + 1, qualified + [QualifiedRef(c, i, j)], usedColumns + {j}, usedTableOrVariable', usedTable')
  {
    UsedColumnsStepSome(c, i, j, usedColumns);
    UsedTablesStepSome(c, i, TableOrVariable, usedTableOrVariable, usedTableOrVariable');
    UsedTablesStepSome(c, i, Table, usedTable, usedTable');
  }

  /** One pass-1 step at a token that forms no pair. */
  lemma PairedStepNone(c: seq<Token>, i: nat, qualified: seq<ArtifactReference>, usedColumns: set<nat>,
                       usedTableOrVariable: set<nat>, usedTable: set<nat>)
    requires i < |c| && PairedUpTo(c, i, qualified, usedColumns, usedTableOrVariable, usedTable)
    requires PairedColumn(c, i).None?
    ensures PairedUpTo(c, i + 1, qualified, usedColumns, usedTableOrVariable, usedTable)
  {
    forall k: nat | k < |c|
      ensures PairingTable(c, k) != Some(i)
    {
      PairingIsMutual(c, i, k);
    }
  }

  /** One step of pass 1: the token at `i` either opens a pair, which is recorded, or is passed over. */
  method PairAt(c: seq<Token>, i: nat, qualified: seq<ArtifactReference>, usedColumns: set<nat>,
                usedTableOrVariable: set<nat>, usedTable: set<nat>)
    returns (qualified': seq<ArtifactReference>, usedColumns': set<nat>,
             usedTableOrVariable': set<nat>, usedTable': set<nat>)
    requires i < |c| && PairedUpTo(c, i, qualified, usedColumns, usedTableOrVariable, usedTable)
    ensures PairedUpTo(c, i + 1, qualified', usedColumns', usedTableOrVariable', usedTable')
  {
    qualified', usedColumns', usedTableOrVariable', usedTable' := qualified, usedColumns, usedTableOrVariable, usedTable;
    var n := |c|;
    var token := c[i];
    if token.ttype == Table || token.ttype == TableOrVariable {
      var j := i + 1;
      if j < n && c[j].ttype == OpenParens {
        j := j + 1;
      }
      if j < n && c[j].ttype == ColumnOrMeasure {
        assert PairedColumn(c, i) == Some(j);
        qualified' := qualified + [QualifiedRef(c, i, j)];
        usedColumns' := usedColumns + {j};
        if token.ttype == TableOrVariable {
          usedTableOrVariable' := usedTableOrVariable + {i};
        }
        if token.ttype == Table {
          usedTable' := usedTable + {i};
        }
        PairedStepSome(c, i, j, qualified, usedColumns, usedTableOrVariable, usedTable, usedTableOrVariable', usedTable');
        return;
      }
    }
    PairedStepNone(c, i, qualified, usedColumns, usedTableOrVariable, usedTable);
  }

  /** Pass 1: every table-like token directly followed (or followed after a `(`) by a column forms a qualified reference. */
  method PairQualified(c: seq<Token>)
    returns (qualified: seq<ArtifactReference>, usedColumns: set<nat>,
             usedTableOrVariable: set<nat>, usedTable: set<nat>)
    ensures qualified == QualifiedUpTo(c, |c|)
    ensures UsedColumnsUpTo(c, usedColumns, |c|)
    ensures UsedTablesUpTo(c, usedTableOrVariable, TableOrVariable, |c|)
    ensures UsedTablesUpTo(c, usedTable, Table, |c|)
  {
    usedColumns, usedTableOrVariable, usedTable := {}, {}, {};
    qualified := [];
    var i := 0;
    while i < |c|
      invariant 0 <= i <= |c|
      invariant PairedUpTo(c, i, qualified, usedColumns, usedTableOrVariable, usedTable)
    {
      qualified, usedColumns, usedTableOrVariable, usedTable := PairAt(c, i, qualified, usedColumns, usedTableOrVariable, usedTable);
      i := i + 1;
    }
  }

  /** Pass 2: every column no table token qualified becomes an unqualified reference, in stream order. */
  method AppendStandalone(c: seq<Token>, usedColumns: set<nat>, qualified: seq<ArtifactReference>)
    returns (artifacts: seq<ArtifactReference>)
    requires UsedColumnsUpTo(c, usedColumns, |c|)
    ensures artifacts == qualified + StandaloneUpTo(c, |c|)
  {
    artifacts := qualified;
    var idx := 0;
    while idx < |c|
      invariant 0 <= idx <= |c|
      invariant artifacts == qualified + StandaloneUpTo(c, idx)
    {
      if c[idx].ttype == ColumnOrMeasure && idx !in usedColumns {
        assert IsStandalone(c, idx);
        artifacts := artifacts + [StandaloneRef(c, idx)];
      } else {
        assert !IsStandalone(c, idx);
      }
      idx := idx + 1;
    }
  }

  /** The decision pass 3 takes for one token, from the sets pass 1 built. */
  method ClassifyAt(c: seq<Token>, declared: set<nat>, varNames: seq<string>,
                    usedTableOrVariable: set<nat>, usedTable: set<nat>, idx: nat)
    returns (kind: Option<SimpleKind>)
    requires idx < |c|
    requires UsedTablesUpTo(c, usedTableOrVariable, TableOrVariable, |c|)
    requires UsedTablesUpTo(c, usedTable, Table, |c|)
    ensures kind == KindAt(c, declared, varNames, idx)
  {
    var tok := c[idx];
    kind := None;
    if idx in declared {
      return;
    }
    if tok.ttype == TableOrVariable {
      if idx in usedTableOrVariable {
        return;
      }
      var name := CleanName(tok.text);
      if name in varNames {
        kind := Some(VariableRef);
      } else if idx + 1 < |c| && c[idx + 1].ttype == OpenParens {
        kind := Some(FunctionRef);
      } else {
        kind := Some(TableRef);
      }
    } else if tok.ttype == Table {
      if idx !in usedTable {
        kind := Some(TableRef);
      }
    }
  }

  /** Pass 3: the remaining table-like tokens, sorted into tables, variables and functions. */
  method ClassifySimple(c: seq<Token>, declared: set<nat>, varNames: seq<string>,
                        usedTableOrVariable: set<nat>, usedTable: set<nat>)
    returns (tables: seq<SimpleReference>, variables: seq<SimpleReference>, functions: seq<SimpleReference>)
    requires UsedTablesUpTo(c, usedTableOrVariable, TableOrVariable, |c|)
    requires UsedTablesUpTo(c, usedTable, Table, |c|)
    ensures tables == SimpleReferences(c, declared, varNames, TableRef)
    ensures variables == SimpleReferences(c, declared, varNames, VariableRef)
    ensures functions == SimpleReferences(c, declared, varNames, FunctionRef)
  {
    tables, variables, functions := [], [], [];
    var idx := 0;
    while idx < |c|
      invariant 0 <= idx <= |c|
      invariant tables == KindUpTo(c, declared, varNames, TableRef, idx)
      invariant variables == KindUpTo(c, declared, varNames, VariableRef, idx)
      invariant functions == KindUpTo(c, declared, varNames, FunctionRef, idx)
    {
      var kind := ClassifyAt(c, declared, varNames, usedTableOrVariable, usedTable, idx);
      var ref := SimpleRef(c, idx);
      match kind {
        case None =>
        case Some(TableRef) => tables := tables + [ref];
        case Some(VariableRef) => variables := variables + [ref];
        case Some(FunctionRef) => functions := functions + [ref];
      }
      idx := idx + 1;
    }
  }

  /**
   * The classifier's three passes over the code tokens `c`, given the
   * positions of the declared variables' name tokens and their names.
   */
  method ScanReferences(c: seq<Token>, declared: set<nat>, varNames: seq<string>)
    returns (artifacts: seq<ArtifactReference>, tables: seq<SimpleReference>,
             variables: seq<SimpleReference>, functions: seq<SimpleReference>)
    ensures artifacts == ArtifactReferences(c)
    ensures tables == SimpleReferences(c, declared, varNames, TableRef)
    ensures variables == SimpleReferences(c, declared, varNames, VariableRef)
    ensures functions == SimpleReferences(c, declared, varNames, FunctionRef)
  {
    var qualified, usedColumns, usedTableOrVariable, usedTable := PairQualified(c);
    artifacts := AppendStandalone(c, usedColumns, qualified);
    tables, variables, functions := ClassifySimple(c, declared, varNames, usedTableOrVariable, usedTable);
  }
}
