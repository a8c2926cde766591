/**
 * Best-practice rules. Every rule carries fixed metadata, a verification
 * flag and the list of tokens that violate it; verifying a rule clears the
 * list and refills it from the expression's token stream.
 *
 * The eight rules of the catalogue differ only in how they compute their
 * violators, so they share one class distinguished by a `kind`; the base
 * rule itself (`Abstract`) has no scan.
 */
module BestPracticeRules {
  import opened Wrappers
  import opened Tokens
  import TokenScans
  import UnusedVariables
  import OneMinusDivision

  datatype RuleKind =
    | UseDivide
    | AvoidIfError
    | UseTreatasInsteadOfIntersect
    | FilterColumnValues
    | FilterMeasureValuesByColumns
    | UnusedVariablesRule
    | AvoidOneMinusDivision
    | EvaluateAndLogInProduction
    | Abstract

  /** Two rules pass their severity on as a number, the others as its decimal text. */
  datatype Severity = IntSeverity(level: int) | TextSeverity(text: string)

  datatype Metadata = Metadata(id: string, name: string, description: string,
                               severity: Severity, category: string, shortName: string)

  /** The outcome of `verify_violation`: done, or the base rule's NotImplementedError. */
  datatype Outcome = Verified | NotImplemented

  /** The rules that flag every token of one type, with that type. */
  function ScannedType(kind: RuleKind): Option<TokenType> {
    match kind
    case UseDivide => Some(Div)
    case AvoidIfError => Some(IfError)
    case UseTreatasInsteadOfIntersect => Some(Intersect)
    case FilterColumnValues => Some(Filter)
    case FilterMeasureValuesByColumns => Some(Filter)
    case EvaluateAndLogInProduction => Some(EvaluateAndLog)
    case _ => None
  }

  /** The violators a rule of kind `kind` finds in the token stream `ts`. */
  function Violators(kind: RuleKind, ts: seq<Token>): seq<Token>
    requires kind != Abstract
  {
    match ScannedType(kind)
    case Some(ty) => TokenScans.OfType(ts, ty)
    case None =>
      if kind == UnusedVariablesRule then UnusedVariables.UnusedViolators(ts)
      else OneMinusDivision.OneMinusViolators(ts)
  }

  /** The rules every expression builds, in the order it lists them. */
  function Catalog(): (kinds: seq<RuleKind>)
    ensures |kinds| == 8 && Abstract !in kinds
    ensures forall k, l :: 0 <= k < l < |kinds| ==> kinds[k] != kinds[l]
  {
    [UseDivide, AvoidIfError, UseTreatasInsteadOfIntersect, FilterColumnValues,
     FilterMeasureValuesByColumns, UnusedVariablesRule, AvoidOneMinusDivision, EvaluateAndLogInProduction]
  }

  /**
   * Whether the rule's `__init__` accepts the `lexer` keyword argument the
   * expression passes: the INTERSECT and EVALUATEANDLOG rules declare an
   * `__init__` without parameters.
   */
  predicate TakesLexer(kind: RuleKind) {
    kind != UseTreatasInsteadOfIntersect && kind != EvaluateAndLogInProduction
  }

  /** Constructing rules one after another: all of them, or a TypeError at the first that refuses `lexer`. */
  datatype Construction = Constructed(kinds: seq<RuleKind>) | TypeErrorAt(kind: RuleKind, index: nat)

  /** `init_best_practices_rules` as written: each rule in turn is built with `lexer=`. */
  function ConstructWithLexer(kinds: seq<RuleKind>): (r: Construction)
    ensures r.Constructed? <==> forall k :: 0 <= k < |kinds| ==> TakesLexer(kinds[k])
    ensures r.Constructed? ==> r.kinds == kinds
    ensures r.TypeErrorAt? ==>
              r.index < |kinds| && kinds[r.index] == r.kind && !TakesLexer(r.kind) &&
              forall k :: 0 <= k < r.index ==> TakesLexer(kinds[k])
  {
    if kinds == [] then Constructed([])
    else if !TakesLexer(kinds[0]) then TypeErrorAt(kinds[0], 0)
    else
      match ConstructWithLexer(kinds[1..])
      case Constructed(rest) => Constructed([kinds[0]] + rest)
      case TypeErrorAt(kind, index) => TypeErrorAt(kind, index + 1)
  }

  /**
   * Building the catalogue as written never completes: the third rule,
   * INTERSECT's, raises the TypeError, whatever the expression.
   */
  lemma CatalogConstructionFails()
    ensures ConstructWithLexer(Catalog()) == TypeErrorAt(UseTreatasInsteadOfIntersect, 2)
  {
  }

  const DaxCategory := "DAX Expressions"

  const UseDivideMeta := Metadata("USE_THE_DIVIDE_FUNCTION_FOR_DIVISION",
    "[DAX Expressions] Use the DIVIDE function for division",
    "Use the DIVIDE  function instead of using \"/\". The DIVIDE function resolves divide-by-zero cases. As such, it is recommended to use to avoid errors.\r\n\r\nReference: https://docs.microsoft.com/power-bi/guidance/dax-divide-function-operator",
    IntSeverity(2), DaxCategory, "Use DIVIDE instead of /")

  const AvoidIfErrorMeta := Metadata("AVOID_USING_THE_IFERROR_FUNCTION",
    "[DAX Expressions] Avoid using the IFERROR function",
    "Avoid using the IFERROR function as it may cause performance degradation. If you are concerned about a divide-by-zero error, use the DIVIDE function as it naturally resolves such errors as blank (or you can customize what should be shown in case of such an error).\r\nReference: https://www.elegantbi.com/post/top10bestpractices",
    IntSeverity(2), DaxCategory, "Avoid IFERROR")

  const TreatasMeta := Metadata("USE_THE_TREATAS_FUNCTION_INSTEAD_OF_INTERSECT",
    "[DAX Expressions] Use the TREATAS function instead of INTERSECT for virtual relationships",
    "The TREATAS function is more efficient and provides better performance than the INTERSECT function when used in virutal relationships.",
    TextSeverity("2"), DaxCategory, "Use TREATAS instead of INTERSECT")

  const FilterColumnValuesMeta := Metadata("FILTER_COLUMN_VALUES",
    "[DAX Expressions] Filter column values with proper syntax",
    "Prefer KEEPFILTERS('Table'[Column] = \"Value\") or 'Table'[Column] = \"Value\" over FILTER('Table', 'Table'[Column] = \"Value\").",
    TextSeverity("2"), DaxCategory, "Filter column values with proper syntax")

  const FilterMeasureValuesMeta := Metadata("FILTER_MEASURE_VALUES_BY_COLUMNS",
    "[DAX Expressions] Filter measure values by columns, not tables",
    "Prefer FILTER over VALUES/ALL('Table'[Column]) for measure filters rather than filtering entire tables.",
    TextSeverity("2"), DaxCategory, "Filter measure values by columns")

  const UnusedVariablesMeta := Metadata("UNUSED_VARIABLES",
    "[DAX Expressions] Unused variables",
    "Flags variables declared with VAR that are never referenced in the expression.",
    TextSeverity("2"), DaxCategory, "Unused variable")

  const OneMinusMeta := Metadata("AVOID_USING_'1-(X/Y)'_SYNTAX",
    "[DAX Expressions] Avoid using '1-(x/y)' syntax",
    "Avoid 1 - (x / y) or 1 + (x / y) patterns; prefer DIVIDE and variable precomputation.",
    TextSeverity("2"), DaxCategory, "Avoid 1-(X/Y) syntax")

  const EvaluateAndLogMeta := Metadata("EVALUATEANDLOG_SHOULD_NOT_BE_USED_IN_PRODUCTION_MODELS",
    "[DAX Expressions] The EVALUATEANDLOG function should not be used in production models",
    "The EVALUATEANDLOG function is meant for development/test environments and should not be used in production models.",
    TextSeverity("1"), DaxCategory, "EVALUATEANDLOG should not be used in production models")

  /** The metadata each rule of the catalogue is built with. */
  function CatalogMetadata(kind: RuleKind): (m: Metadata)
    requires kind != Abstract
    ensures m.category == DaxCategory
    ensures m.severity == (if kind == UseDivide || kind == AvoidIfError then IntSeverity(2)
                           else if kind == EvaluateAndLogInProduction then TextSeverity("1")
                           else TextSeverity("2"))
  {
    match kind
    case UseDivide => UseDivideMeta
    case AvoidIfError => AvoidIfErrorMeta
    case UseTreatasInsteadOfIntersect => TreatasMeta
    case FilterColumnValues => FilterColumnValuesMeta
    case FilterMeasureValuesByColumns => FilterMeasureValuesMeta
    case UnusedVariablesRule => UnusedVariablesMeta
    case AvoidOneMinusDivision => OneMinusMeta
    case EvaluateAndLogInProduction => EvaluateAndLogMeta
  }

  class BestPracticeRule {
    const kind: RuleKind
    const meta: Metadata
    /** The lexed expression the rule inspects. */
    const tokens: seq<Token>
    var verified: bool
    var violatorsTokens: seq<Token>

    /** The base rule, built from explicit metadata: not verified, no violators. */
    constructor (id: string, name: string, description: string, severity: Severity,
                 category: string, shortName: string, tokens: seq<Token>)
      ensures kind == Abstract && meta == Metadata(id, name, description, severity, category, shortName)
      ensures this.tokens == tokens && !verified && violatorsTokens == []
    {
      kind := Abstract;
      meta := Metadata(id, name, description, severity, category, shortName);
      this.tokens := tokens;
      verified := false;
      violatorsTokens := [];
    }

    /** A rule of the catalogue over the expression `tokens`: not verified, no violators. */
    constructor Make(kind: RuleKind, tokens: seq<Token>)
      requires kind != Abstract
      ensures this.kind == kind && meta == CatalogMetadata(kind)
      ensures this.tokens == tokens && !verified && violatorsTokens == []
    {
      this.kind := kind;
      meta := CatalogMetadata(kind);
      this.tokens := tokens;
      verified := false;
      violatorsTokens := [];
    }

    /** `violated`: the rule has at least one violator. */
    function Violated(): (b: bool)
      reads this
      ensures b <==> violatorsTokens != []
    {
      |violatorsTokens| > 0
    }

    /** `number_of_violations`. */
    function NumberOfViolations(): (n: nat)
      reads this
      ensures n == 0 <==> !Violated()
    {
      |violatorsTokens|
    }

    /** Empties the violator list and leaves every other field as it was. */
    method ClearViolations()
      modifies this
      ensures violatorsTokens == [] && verified == old(verified)
    {
      violatorsTokens := [];
    }

    /**
     * `verify_violation`: the base rule fails without changing anything; a
     * catalogue rule clears its violators, scans its expression and is then
     * verified. The result does not depend on earlier verifications.
     */
    method VerifyViolation() returns (outcome: Outcome)
      modifies this
      ensures kind == Abstract ==> outcome == NotImplemented && unchanged(this)
      ensures kind != Abstract ==> outcome == Verified && verified && violatorsTokens == Violators(kind, tokens)
    {
      if kind == Abstract {
        return NotImplemented;
      }
      ClearViolations();
      var found: seq<Token>;
      match ScannedType(kind) {
        case Some(ty) =>
          found := TokenScans.FlagTokensOfType(tokens, ty);
        case None =>
          if kind == UnusedVariablesRule {
            found := UnusedVariables.FindUnusedVariables(tokens);
          } else {
            found := OneMinusDivision.FindOneMinusDivision(tokens);
          }
      }
      violatorsTokens := violatorsTokens + found;
      verified := true;
      return Verified;
    }
  }

  /**
   * A single-token rule flags every token of its type exactly once, in
   * stream order, and has a violator iff `check_contains_function` finds
   * that type.
   */
  lemma SingleTokenRuleFlagsEachOnce(kind: RuleKind, ts: seq<Token>)
    requires ScannedType(kind).Some?
    ensures var ty := ScannedType(kind).value;
            var ps := TokenScans.PositionsOfType(ts, ty, |ts|);
            |Violators(kind, ts)| == |ps| &&
            (forall k :: 0 <= k < |ps| ==> Violators(kind, ts)[k] == ts[ps[k]]) &&
            (Violators(kind, ts) != [] <==> exists i :: 0 <= i < |ts| && ts[i].ttype == ty)
  {
    var ty := ScannedType(kind).value;
    TokenScans.FlaggedExactlyOnce(ts, ty, |ts|);
    assert ts[..|ts|] == ts;
    TokenScans.ContainsIffFlagged(ts, ty);
  }

  /** Verifying a rule twice leaves the same violators as verifying it once. */
  method VerifyTwice(rule: BestPracticeRule) returns (first: seq<Token>, second: seq<Token>)
    requires rule.kind != Abstract
    modifies rule
    ensures first == second == Violators(rule.kind, rule.tokens)
  {
    var _ := rule.VerifyViolation();
    first := rule.violatorsTokens;
    var _ := rule.VerifyViolation();
    second := rule.violatorsTokens;
  }
}
