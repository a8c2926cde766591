/**
 * DAXExpression: the analysis of one DAX expression. Construction lexes the
 * text once and then, in order, rebuilds the comment-free text, detects the
 * variables and the references, lists the comments, strips the whitespace,
 * builds the eight best-practice rules and, when asked, verifies them.
 *
 * The lexer is not modelled: the constructor receives the tokens it produces
 * for the text (its tokens before EOF).
 */
module DaxExpressions {
  import opened Wrappers
  import opened Tokens
  import Comments
  import opened DaxVariables
  import opened DaxReferences
  import opened VariableDeclarator
  import ReferenceClassifier
  import opened BestPracticeRules

  /** What the constructor may be handed: text, or anything else. */
  datatype Input = Text(s: string) | NonText

  /** Anything that is not a string is analysed as the empty expression. */
  function Coerce(input: Input): (s: string)
    ensures input.NonText? ==> s == ""
    ensures input.Text? ==> s == input.s
  {
    match input
    case Text(s) => s
    case NonText => ""
  }

  /** The variable `v` records the declaration `d` of the code stream `c`. */
  predicate Records(v: DaxVariable, c: seq<Token>, d: Declaration) {
    d.nameIndex < |c| && d.keywordIndex < |c| &&
    v.name == d.name &&
    v.token.Snapshots(c[d.nameIndex]) &&
    v.varKeywordToken.Snapshots(c[d.keywordIndex]) &&
    match d.lastIndex
    case None => v.lastExpressionToken == null
    case Some(l) => l < |c| && v.lastExpressionToken != null && v.lastExpressionToken.Snapshots(c[l])
  }

  /** The variable list records the declarations one for one, in order. */
  predicate RecordsAll(vs: seq<DaxVariable>, c: seq<Token>, ds: seq<Declaration>) {
    |vs| == |ds| && forall k :: 0 <= k < |ds| ==> Records(vs[k], c, ds[k])
  }

  /** The positions of the declared names. */
  function NameIndexes(ds: seq<Declaration>): set<nat> {
    set d | d in ds :: d.nameIndex
  }

  /** The names of the declarations, in declaration order (the names the reference scan looks up). */
  function DeclaredNames(ds: seq<Declaration>): (names: seq<string>)
    ensures |names| == |ds| && forall k :: 0 <= k < |ds| ==> names[k] == ds[k].name
  {
    seq(|ds|, k requires 0 <= k < |ds| => ds[k].name)
  }

  /** The names of the recorded variable objects, in list order (the names `extract_references` looks up). */
  function VariableNames(vs: seq<DaxVariable>): (names: seq<string>)
    ensures |names| == |vs| && forall k :: 0 <= k < |vs| ==> names[k] == vs[k].name
  {
    seq(|vs|, k requires 0 <= k < |vs| => vs[k].name)
  }

  /** Recorded variables carry the declared names, so name lookups agree. */
  lemma RecordedNames(vs: seq<DaxVariable>, c: seq<Token>, ds: seq<Declaration>)
    requires RecordsAll(vs, c, ds)
    ensures VariableNames(vs) == DeclaredNames(ds)
  {
  }

  /**
   * The variable recorded, if any, for the VAR keyword at `i`, and where the
   * scan resumes: the token that ends the binding.
   */
  method DeclareAt(c: seq<Token>, i: nat) returns (v: DaxVariable?, nameIndex: Option<nat>, next: nat)
    requires i < |c| && IsVarKeyword(c[i])
    ensures nameIndex == NameFrom(c, i + 1)
    ensures next == BoundaryFrom(c, ExprStart(c, i))
    ensures nameIndex.None? ==> v == null
    ensures nameIndex.Some? ==> v != null && Records(v, c, DeclAt(c, i, nameIndex.value))
  {
    nameIndex := FindVariableName(c, i);
    var j := if nameIndex.Some? then nameIndex.value + 1 else i + 1;
    if j < |c| && c[j].ttype == Assignment {
      j := j + 1;
    }
    assert j == ExprStart(c, i);
    var last: Option<nat>;
    next, last := FindBindingEnd(c, j);
    if nameIndex.Some? {
      var p := nameIndex.value;
      DeclAtFields(c, i, p);
      v := NewVariable(c, Declaration(CleanName(c[p].text), p, i, last));
    } else {
      v := null;
    }
  }

  /** A new variable that records the declaration `d`. */
  method NewVariable(c: seq<Token>, d: Declaration) returns (v: DaxVariable)
    requires d.nameIndex < |c| && d.keywordIndex < |c|
    requires d.lastIndex.Some? ==> d.lastIndex.value < |c|
    ensures Records(v, c, d)
  {
    var lastToken := if d.lastIndex.Some? then Some(c[d.lastIndex.value]) else None;
    v := new DaxVariable(d.name, c[d.nameIndex], c[d.keywordIndex], lastToken);
  }

  lemma NameIndexesSnoc(ds: seq<Declaration>, d: Declaration)
    ensures NameIndexes(ds + [d]) == NameIndexes(ds) + {d.nameIndex}
  {
    assert forall e :: e in ds + [d] <==> e in ds || e == d;
  }

  /** Recording one more declaration at the end. */
  lemma RecordsAllSnoc(vs: seq<DaxVariable>, c: seq<Token>, ds: seq<Declaration>, v: DaxVariable, d: Declaration)
    requires RecordsAll(vs, c, ds) && Records(v, c, d)
    ensures RecordsAll(vs + [v], c, ds + [d])
  {
  }

  /** The scan from a VAR keyword: its variable, if named, then the scan from where the binding ends. */
  lemma DeclarationsStep(c: seq<Token>, i: nat)
    requires i < |c| && IsVarKeyword(c[i])
    ensures var name := NameFrom(c, i + 1);
            DeclarationsFrom(c, i) ==
            (if name.Some? then [DeclAt(c, i, name.value)] else []) + DeclarationsFrom(c, BoundaryFrom(c, ExprStart(c, i)))
  {
  }

  /**
   * One step of the scan at a VAR keyword: the variable it declares, if
   * named, is recorded, and the scan resumes where the binding ends.
   */
  method DetectAt(c: seq<Token>, i: nat, variables: seq<DaxVariable>, nameIndexes: set<nat>, ghost decls: seq<Declaration>)
    returns (variables': seq<DaxVariable>, nameIndexes': set<nat>, ghost decls': seq<Declaration>, next: nat)
    requires i < |c| && IsVarKeyword(c[i])
    requires RecordsAll(variables, c, decls) && nameIndexes == NameIndexes(decls)
    ensures i < next <= |c|
    ensures RecordsAll(variables', c, decls') && nameIndexes' == NameIndexes(decls')
    ensures decls' + DeclarationsFrom(c, next) == decls + DeclarationsFrom(c, i)
  {
    var v, nameIndex;
    v, nameIndex, next := DeclareAt(c, i);
    DeclarationsStep(c, i);
    if nameIndex.Some? {
      ghost var d := DeclAt(c, i, nameIndex.value);
      variables' := variables + [v];
      nameIndexes' := nameIndexes + {nameIndex.value};
      decls' := decls + [d];
      RecordsAllSnoc(variables, c, decls, v, d);
      NameIndexesSnoc(decls, d);
      AppendAssociative(decls, [d], DeclarationsFrom(c, next));
    } else {
      variables', nameIndexes', decls' := variables, nameIndexes, decls;
    }
  }

  /**
   * `detect_variables`: one variable per VAR keyword whose name search
   * succeeds, in order, and the positions of their names. The scan resumes
   * where each binding ends.
   */
  method DetectVariables(c: seq<Token>) returns (variables: seq<DaxVariable>, nameIndexes: set<nat>)
    ensures RecordsAll(variables, c, Declarations(c))
    ensures nameIndexes == NameIndexes(Declarations(c))
  {
    variables := [];
    nameIndexes := {};
    ghost var decls: seq<Declaration> := [];
    var i := 0;
    while i < |c|
      invariant i <= |c|
      invariant decls + DeclarationsFrom(c, i) == Declarations(c)
      invariant RecordsAll(variables, c, decls)
      invariant nameIndexes == NameIndexes(decls)
      decreases |c| - i
    {
      IsVarTextIsUpperVar(c[i].text);
      if c[i].ttype == Var || Upper(c[i].text) == "VAR" {
        variables, nameIndexes, decls, i := DetectAt(c, i, variables, nameIndexes, decls);
      } else {
        i := i + 1;
      }
    }
    assert DeclarationsFrom(c, i) == [];
    assert decls == decls + [];
  }

  /** The four reference lists of an expression. */
  datatype ReferenceLists = ReferenceLists(artifacts: seq<ArtifactReference>, tables: seq<SimpleReference>,
                                           variables: seq<SimpleReference>, functions: seq<SimpleReference>)

  const NoReferences := ReferenceLists([], [], [], [])

  /** The references one extraction finds in the lexed expression `ts`. */
  function Extracted(ts: seq<Token>): ReferenceLists {
    var c := ReferenceClassifier.CodeTokens(ts);
    var ds := Declarations(c);
    var declared := NameIndexes(ds);
    var names := DeclaredNames(ds);
    ReferenceLists(ReferenceClassifier.ArtifactReferences(c),
                   ReferenceClassifier.SimpleReferences(c, declared, names, ReferenceClassifier.TableRef),
                   ReferenceClassifier.SimpleReferences(c, declared, names, ReferenceClassifier.VariableRef),
                   ReferenceClassifier.SimpleReferences(c, declared, names, ReferenceClassifier.FunctionRef))
  }

  /** Lists extended list by list. */
  function Appended(prev: ReferenceLists, found: ReferenceLists): (r: ReferenceLists)
    ensures |r.artifacts| == |prev.artifacts| + |found.artifacts|
    ensures r.artifacts[..|prev.artifacts|] == prev.artifacts && r.artifacts[|prev.artifacts|..] == found.artifacts
  {
    ReferenceLists(prev.artifacts + found.artifacts, prev.tables + found.tables,
                   prev.variables + found.variables, prev.functions + found.functions)
  }

  /**
   * Detects the variables of the code stream of `ts`, then scans its
   * references with the declared names and their positions.
   */
  method FindReferences(ts: seq<Token>) returns (vs: seq<DaxVariable>, found: ReferenceLists)
    ensures found == Extracted(ts)
    ensures RecordsAll(vs, ReferenceClassifier.CodeTokens(ts), Declarations(ReferenceClassifier.CodeTokens(ts)))
  {
    var c := ReferenceClassifier.CodeTokens(ts);
    var declared;
    vs, declared := DetectVariables(c);
    RecordedNames(vs, c, Declarations(c));
    var artifacts, tables, vars, functions := ReferenceClassifier.ScanReferences(c, declared, VariableNames(vs));
    found := ReferenceLists(artifacts, tables, vars, functions);
  }

  /** The catalogue rules over `ts`, in declaration order: the kinds differ, so the rules are distinct objects. */
  predicate CatalogRules(rules: seq<BestPracticeRule>, ts: seq<Token>) {
    |rules| == |Catalog()| &&
    forall k :: 0 <= k < |rules| ==> rules[k].kind == Catalog()[k] && rules[k].tokens == ts
  }

  /** Every rule holds the violators its scan finds in its stream. */
  predicate AllVerified(rules: seq<BestPracticeRule>)
    reads set r | r in rules
  {
    forall k :: 0 <= k < |rules| ==>
      rules[k].kind != Abstract && rules[k].verified && rules[k].violatorsTokens == Violators(rules[k].kind, rules[k].tokens)
  }

  /** The rules of a catalogue are catalogue rules, and distinct objects since their kinds differ. */
  lemma CatalogRulesDistinct(rules: seq<BestPracticeRule>, ts: seq<Token>)
    requires CatalogRules(rules, ts)
    ensures forall k :: 0 <= k < |rules| ==> rules[k].kind != Abstract
    ensures forall k, l :: 0 <= k < l < |rules| ==> rules[k] != rules[l]
  {
    forall k, l | 0 <= k < l < |rules|
      ensures rules[k] != rules[l]
    {
      assert rules[k].kind == Catalog()[k] != Catalog()[l] == rules[l].kind;
    }
  }

  /** Verifies each rule in turn; each holds the violators of its scan afterwards. */
  method VerifyAll(rules: seq<BestPracticeRule>)
    requires forall k :: 0 <= k < |rules| ==> rules[k].kind != Abstract
    requires forall k, l :: 0 <= k < l < |rules| ==> rules[k] != rules[l]
    modifies rules
    ensures AllVerified(rules)
  {
    for i := 0 to |rules|
      invariant forall k :: 0 <= k < i ==>
        rules[k].verified && rules[k].violatorsTokens == Violators(rules[k].kind, rules[k].tokens)
    {
      var _ := rules[i].VerifyViolation();
    }
  }

  /**
   * In a verified catalogue every rule that scans for one token type lists
   * exactly the tokens of that type, the INTERSECT and EVALUATEANDLOG rules
   * included: each rule is given the expression's stream.
   */
  lemma VerifiedCatalogScans(rules: seq<BestPracticeRule>, ts: seq<Token>)
    requires CatalogRules(rules, ts) && AllVerified(rules)
    ensures forall k :: 0 <= k < |rules| && ScannedType(rules[k].kind).Some? ==>
              rules[k].violatorsTokens == TokenScans.OfType(ts, ScannedType(rules[k].kind).value)
    ensures rules[2].kind == UseTreatasInsteadOfIntersect && rules[2].violatorsTokens == TokenScans.OfType(ts, Intersect)
    ensures rules[7].kind == EvaluateAndLogInProduction && rules[7].violatorsTokens == TokenScans.OfType(ts, EvaluateAndLog)
  {
  }

  /** Python's total: the count of every violated rule, in order. Zero iff no rule is violated. */
  function SumViolated(rules: seq<BestPracticeRule>): (n: nat)
    reads set r | r in rules
    ensures n == 0 <==> forall k :: 0 <= k < |rules| ==> !rules[k].Violated()
  {
    if rules == [] then 0
    else
      var last := rules[|rules| - 1];
      SumViolated(rules[..|rules| - 1]) + (if last.Violated() then last.NumberOfViolations() else 0)
  }

  /** The violators of the listed kinds over `ts`, counted. */
  function KindsTotal(kinds: seq<RuleKind>, ts: seq<Token>): nat
    requires Abstract !in kinds
  {
    if kinds == [] then 0 else KindsTotal(kinds[..|kinds| - 1], ts) + |Violators(kinds[|kinds| - 1], ts)|
  }

  /** How many violations the whole catalogue finds in the stream `ts`. */
  function CatalogTotal(ts: seq<Token>): nat {
    KindsTotal(Catalog(), ts)
  }

  /** Once verified, the rules' total is the number of violators their scans find. */
  lemma {:induction false} VerifiedTotal(rules: seq<BestPracticeRule>, kinds: seq<RuleKind>, ts: seq<Token>)
    requires Abstract !in kinds && |rules| == |kinds|
    requires forall k :: 0 <= k < |rules| ==> rules[k].kind == kinds[k] && rules[k].violatorsTokens == Violators(kinds[k], ts)
    ensures SumViolated(rules) == KindsTotal(kinds, ts)
  {
    if rules != [] {
      var m := |rules| - 1;
      VerifiedTotal(rules[..m], kinds[..m], ts);
    }
  }

  /** A fresh, unverified catalogue rule over `ts`. */
  method NewRule(kind: RuleKind, ts: seq<Token>) returns (r: BestPracticeRule)
    requires kind != Abstract
    ensures fresh(r) && r.kind == kind && r.tokens == ts && !r.verified && r.violatorsTokens == []
  {
    r := new BestPracticeRule.Make(kind, ts);
  }

  /** A fresh, unverified rule of each kind of the catalogue over `ts`, in declaration order. */
  method NewCatalog(ts: seq<Token>) returns (rules: seq<BestPracticeRule>)
    ensures CatalogRules(rules, ts) && forall k :: 0 <= k < |rules| ==> fresh(rules[k])
    ensures forall k :: 0 <= k < |rules| ==> !rules[k].verified && rules[k].violatorsTokens == []
  {
    var r0 := NewRule(UseDivide, ts);
    var r1 := NewRule(AvoidIfError, ts);
    var r2 := NewRule(UseTreatasInsteadOfIntersect, ts);
    var r3 := NewRule(FilterColumnValues, ts);
    var r4 := NewRule(FilterMeasureValuesByColumns, ts);
    var r5 := NewRule(UnusedVariablesRule, ts);
    var r6 := NewRule(AvoidOneMinusDivision, ts);
    var r7 := NewRule(EvaluateAndLogInProduction, ts);
    rules := [r0, r1, r2, r3, r4, r5, r6, r7];
  }

  class DaxExpression {
    const expression: string
    /** The lexed expression, every channel. */
    const tokens: seq<Token>
    var noComments: string
    var variables: seq<DaxVariable>
    var tableColumnReferences: seq<ArtifactReference>
    var tableReferences: seq<SimpleReference>
    var variableReferences: seq<SimpleReference>
    var functionReferences: seq<SimpleReference>
    var comments: seq<string>
    var cleanExpression: string
    /** `best_practice_rules`, in declaration order. */
    var rules: seq<BestPracticeRule>

    function References(): ReferenceLists
      reads this
    {
      ReferenceLists(tableColumnReferences, tableReferences, variableReferences, functionReferences)
    }

    /**
     * Analyses `input`, whose text the lexer turns into `lexed`. Every
     * derived field is the function of the token stream that states it, the
     * rules are the catalogue over the stream, and verifying them (when
     * asked) leaves each with its scan's violators.
     */
    constructor (input: Input, lexed: seq<Token>, verifyBestPractices: bool)
      ensures expression == Coerce(input)
      ensures tokens == if input.Text? then lexed else []
      ensures noComments == Comments.CodeText(tokens) && comments == Comments.CommentTexts(tokens)
      ensures cleanExpression == Comments.CleanExpression(noComments)
      ensures RecordsAll(variables, ReferenceClassifier.CodeTokens(tokens), Declarations(ReferenceClassifier.CodeTokens(tokens)))
      ensures References() == Extracted(tokens)
      ensures CatalogRules(rules, tokens) && forall k :: 0 <= k < |rules| ==> fresh(rules[k])
      ensures verifyBestPractices ==> AllVerified(rules)
      ensures !verifyBestPractices ==> forall k :: 0 <= k < |rules| ==> !rules[k].verified && rules[k].violatorsTokens == []
    {
      var ts := if input.Text? then lexed else [];
      expression := Coerce(input);
      tokens := ts;
      var code := Comments.RemoveComments(ts);
      noComments := code;
      var vs, found := FindReferences(ts);
      variables := vs;
      tableColumnReferences, tableReferences := found.artifacts, found.tables;
      variableReferences, functionReferences := found.variables, found.functions;
      var cs := Comments.ExtractComments(ts);
      comments := cs;
      cleanExpression := Comments.CleanExpression(code);
      var rs := NewCatalog(ts);
      if verifyBestPractices {
        CatalogRulesDistinct(rs, ts);
        VerifyAll(rs);
      }
      rules := rs;
    }

    /**
     * `extract_references` as written: the variables are detected afresh,
     * but the references found are appended to whatever the lists held.
     */
    method ExtractReferences()
      modifies this
      ensures References() == Appended(old(References()), Extracted(tokens))
      ensures RecordsAll(variables, ReferenceClassifier.CodeTokens(tokens), Declarations(ReferenceClassifier.CodeTokens(tokens)))
      ensures noComments == old(noComments) && comments == old(comments)
      ensures cleanExpression == old(cleanExpression) && rules == old(rules)
    {
      var vs, found := FindReferences(tokens);
      variables := vs;
      tableColumnReferences := tableColumnReferences + found.artifacts;
      tableReferences := tableReferences + found.tables;
      variableReferences := variableReferences + found.variables;
      functionReferences := functionReferences + found.functions;
    }

    /** Extraction that empties the lists first: the lists then hold one extraction, whatever they held before. */
    method RefreshReferences()
      modifies this
      ensures References() == Extracted(tokens)
      ensures RecordsAll(variables, ReferenceClassifier.CodeTokens(tokens), Declarations(ReferenceClassifier.CodeTokens(tokens)))
      ensures noComments == old(noComments) && comments == old(comments)
      ensures cleanExpression == old(cleanExpression) && rules == old(rules)
    {
      tableColumnReferences, tableReferences, variableReferences, functionReferences := [], [], [], [];
      ExtractReferences();
    }

    /** `init_best_practices_rules`: a fresh, unverified rule of each kind of the catalogue. */
    method InitBestPracticesRules()
      modifies this
      ensures CatalogRules(rules, tokens) && forall k :: 0 <= k < |rules| ==> fresh(rules[k])
      ensures forall k :: 0 <= k < |rules| ==> !rules[k].verified && rules[k].violatorsTokens == []
      ensures noComments == old(noComments) && comments == old(comments) && cleanExpression == old(cleanExpression)
      ensures variables == old(variables) && References() == old(References())
    {
      rules := NewCatalog(tokens);
    }

    /** `verify_best_practices`: every rule of the catalogue is verified, in order. */
    method VerifyBestPractices()
      requires CatalogRules(rules, tokens)
      modifies rules
      ensures AllVerified(rules)
    {
      var rs := rules;
      CatalogRulesDistinct(rs, tokens);
      VerifyAll(rs);
    }

    /**
     * `number_of_violations`: zero iff no rule is violated; once the
     * catalogue is verified, the number of violators its scans find.
     */
    function NumberOfViolations(): (n: nat)
      reads this, rules
      ensures n == 0 <==> forall k :: 0 <= k < |rules| ==> !rules[k].Violated()
      ensures CatalogRules(rules, tokens) && AllVerified(rules) ==> n == CatalogTotal(tokens)
    {
      if CatalogRules(rules, tokens) && AllVerified(rules) then
        VerifiedTotal(rules, Catalog(), tokens);
        SumViolated(rules)
      else
        SumViolated(rules)
    }
  }

  /** `[Sales]`: a single unqualified column. */
  function OneColumn(): seq<Token> {
    [Token(ColumnOrMeasure, Default, "[Sales]", 0, 6, 1, 0)]
  }

  /** One extraction of `[Sales]` finds the one column. */
  lemma OneColumnExtracted()
    ensures |Extracted(OneColumn()).artifacts| == 1
  {
    var c := ReferenceClassifier.CodeTokens(OneColumn());
    assert c == OneColumn();
  }

  /** Extracting `[Sales]` a second time on the same expression lists the column twice. */
  lemma ExtractTwiceDuplicates()
    ensures var once := Extracted(OneColumn());
            |Appended(once, once).artifacts| == 2 && Appended(once, once) != once
  {
    OneColumnExtracted();
  }
}
