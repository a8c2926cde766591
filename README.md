# PyDAXLexer token-stream analyser, modelled in Dafny

PyDAXLexer analyses DAX formulas (the Power BI / Analysis Services
expression language). An ANTLR lexer turns the text into typed tokens on
three channels: default, keyword and comments. `DAXExpression` then works
on that token stream. It does the following:
- rebuilds the comment-free text, lists the comments and strips whitespace;
- finds `VAR name = …` declarations;
- classifies references in three passes: `Table[Column]` pairs,
  standalone `[Column]`s, and leftover identifiers as variables,
  functions or tables;
- runs a catalogue of eight best-practice rules, each of which keeps a
  list of violator tokens.

`DAXProcessor` is an older cursor-based analyser over the same stream.

The model treats the lexer as an immutable `seq<Token>`: the tokens it
emits before EOF. Each `reset()`-then-`nextToken()` loop becomes an index
loop over that sequence. Python's token identity (`is`) becomes the token's
position. The loops are methods proved against specification functions.
The properties the code promises are lemmas about those functions.

| file | module | models |
|---|---|---|
| tokens.dfy | `Tokens` | token, channel, selection, texts, ASCII case mapping, `_clean_name` |
| wrappers.dfy | `Wrappers` | `Option` |
| comments.dfy | `Comments` | `remove_comments`, `extract_comments`, `clean_expression` |
| dax_token.dfy | `DaxTokens` | `DAXToken` snapshots |
| dax_variable.dfy | `DaxVariables` | `DAXVariable` |
| dax_reference.dfy | `DaxReferences` | `DAXReference` and the reference records |
| variables.dfy | `VariableDeclarator` | the scan of `detect_variables`, as functions |
| references.dfy, references_props.dfy | `ReferenceClassifier`, `ReferenceProperties` | the three passes of `extract_references` |
| token_scans.dfy | `TokenScans` | `check_contains_function` and the single-token rules |
| unused_variables.dfy | `UnusedVariables` | the unused-variables rule |
| one_minus_division.dfy | `OneMinusDivision`, `OneMinusDivisionExamples` | the `1 ± (x / y)` rule |
| best_practice_rule.dfy | `BestPracticeRules` | the rule base class and the catalogue |
| dax_expression.dfy | `DaxExpressions` | `DAXExpression` |
| dax_processor.dfy | `DaxProcessors` | `DAXProcessor` |

Python's `str.upper()` and `str.lower()` are modelled on ASCII letters.
`str.strip()` removes exactly the characters `str.isspace()` accepts: tab to
carriage return, U+001C to U+001F, space, NEL, no-break space, and the
Unicode space, line and paragraph separators.
The expression's constructor takes, besides its input, the token list the
lexer produces for the text. For non-string input the text is empty, and
so is that list.

Where the written description of the project and the code disagree, the
model follows the code:
- The FILTER rules flag every FILTER token. There is no CALCULATE guard and
  no pattern match.
- The one-minus rule reads default-channel tokens only.
- The unused-variables rule keys declarations by the raw lower-cased name.
  It does not clean quotes.
- Re-running reference extraction appends rather than yielding the same
  lists; see "## Findings".
- As written, building any expression fails: the INTERSECT and EVALUATEANDLOG
  rules do not accept the `lexer` argument the expression passes. The model
  builds the catalogue the tests expect; see "## Findings".

## Model

| member | source | states |
|---|---|---|
| Tokens.StripOneCases | src/PyDAX/DAXExpression.py:588-594 | a closing quote is dropped, then an opening one: both ends when both are quotes and the text has two characters or more, one end when only that end is a quote, nothing otherwise |
| Comments.ExtractComments | src/PyDAX/DAXExpression.py:233-248 | the result is the text of every comment-channel token, in stream order |
| Comments.RemoveComments | src/PyDAX/DAXExpression.py:250-265 | the result is the in-order concatenation of the text of every token not on the comment channel |
| Comments.SplitRoundTrip | src/PyDAX/DAXExpression.py:233-265 | the comment-free texts and the comment texts, put back at their tokens' places, give every token text of the stream: the two lists partition it |
| Comments.NoCommentsUnchanged | tests/test_remove_comments_brackets.py:5-9 | a stream with no comment token comes back as the concatenation of all its texts, with no comment |
| Comments.CleanExpressionKeepsNonBlank | src/PyDAX/DAXExpression.py:225-231 | the four chained `replace` calls keep exactly the characters that are not space, `\n`, `\r` or `\t`, in order; none of those four remains |
| Comments.CleanExpressionIdempotent | src/PyDAX/DAXExpression.py:225-231 | cleaning a cleaned text changes nothing |
| Comments.NonBlankFixed | src/PyDAX/DAXExpression.py:225-231 | a text without blanks is its own clean form |
| DaxTokens.DaxToken.constructor | src/PyDAX/DAXToken.py:5-11 | the snapshot copies start, stop, line, column, text and type unchanged |
| DaxTokens.SnapshotTwice | src/PyDAX/DAXToken.py:4-14 | two snapshots of one token hold equal fields but are distinct objects, as no equality is defined |
| DaxVariables.DaxVariable.constructor | src/PyDAX/DAXVariable.py:4-8 | the name is kept; name and keyword tokens become fresh snapshots; the last-expression snapshot is null iff no token is given |
| DaxVariables.HashConsistent | src/PyDAX/DAXVariable.py:10-16 | equal variables have equal hash tuples; nothing that is not a variable equals one |
| DaxVariables.ConstructTwice | src/PyDAX/DAXVariable.py:10-13 | two variables built from the same arguments are never equal, since their snapshots differ; a variable equals itself |
| DaxReferences.DaxReference.ToString | src/PyDAX/DAXReference.py:8-9 | the text is a quote, the table name, a quote, `[`, the artifact name and `]` |
| DaxReferences.HashConsistent | src/PyDAX/DAXReference.py:12-18 | a reference equals a value iff that value is a reference with the same hash pair, that is iff it is the same pair of names; a value that is not a reference is never equal |
| DaxReferences.TokensIgnored | src/PyDAX/DAXExpression.py:311 | two artifact references that differ only in their column and table tokens are equal, and so are their name pairs |
| DaxReferences.ToStringRoundTrip | src/PyDAX/DAXReference.py:8-9 | without a quote in the table name, the rendering parses back to the same reference |
| DaxReferences.ToStringNotInjective | src/PyDAX/DAXReference.py:8-9 | two different references with quotes and brackets in their names render alike |
| VariableDeclarator.IsVarTextIsUpperVar | src/PyDAX/DAXExpression.py:173 | the spelled-out keyword test holds iff the upper-cased text is `VAR` |
| VariableDeclarator.StopFrom | src/PyDAX/DAXExpression.py:179 | the first `=`, VAR or RETURN at or after a position, or the end; nothing before it stops the search |
| VariableDeclarator.NameFrom | src/PyDAX/DAXExpression.py:176-184 | the name is the first TABLE or TABLE_OR_VARIABLE token before the search stops; there is none iff no such token comes before the stop |
| VariableDeclarator.BoundaryFrom | src/PyDAX/DAXExpression.py:191-199 | the first VAR keyword or RETURN at or after a position, or the end; nothing before it ends the binding |
| VariableDeclarator.FindVariableName | src/PyDAX/DAXExpression.py:176-184 | the loop's result is the name position `NameFrom` defines |
| VariableDeclarator.FindBindingEnd | src/PyDAX/DAXExpression.py:191-199 | the loop stops at the binding's boundary; the last token is the one before it, or none when the binding is empty |
| VariableDeclarator.DeclarationsWellFormed | src/PyDAX/DAXExpression.py:161-215 | every recorded variable has a VAR keyword, its name is that keyword's name search result, its name is cleaned, and its last token is the last before the next VAR/RETURN or end; declarations come in source order |
| VariableDeclarator.DeclarationsFromWellFormed | src/PyDAX/DAXExpression.py:167-213 | the same for the scan started at any position, with every keyword at or after it |
| VariableDeclarator.DeclarationsFromOrdered | src/PyDAX/DAXExpression.py:167-213 | declarations are strictly ordered: each name comes before the next keyword |
| VariableDeclarator.HeadWellFormed | src/PyDAX/DAXExpression.py:173-210 | the variable recorded for a keyword satisfies the well-formedness conditions and its name lies inside its binding |
| VariableDeclarator.NoVarTokenSkipped | src/PyDAX/DAXExpression.py:193-211 | no VAR token lies inside the span a binding jumps over |
| VariableDeclarator.VarTokenDeclaresFrom | src/PyDAX/DAXExpression.py:167-213 | a VAR token at or after the scan's start gets a variable iff its name search succeeds |
| VariableDeclarator.VarTokenDeclares | src/PyDAX/DAXExpression.py:173-210 | every VAR token gets a variable iff a name token appears before the next `=`, VAR or RETURN |
| ReferenceClassifier.PairedColumn | src/PyDAX/DAXExpression.py:296-303 | a pair is a table-like token, an optional `(`, then a column token |
| ReferenceClassifier.PairingIsMutual | src/PyDAX/DAXExpression.py:296-317 | a table pairs with a column iff that column is paired by that table |
| ReferenceClassifier.PairAt | src/PyDAX/DAXExpression.py:294-317 | one step of pass 1 keeps the pairs and the used-position sets equal to those of the specification |
| ReferenceClassifier.PairQualified | src/PyDAX/DAXExpression.py:291-318 | pass 1 gives the qualified references in scan order, and the sets of used columns and used table tokens |
| ReferenceClassifier.AppendStandalone | src/PyDAX/DAXExpression.py:320-329 | pass 2 appends an unqualified reference for every unpaired column, in order |
| ReferenceClassifier.ClassifyAt | src/PyDAX/DAXExpression.py:332-356 | one token is skipped if it is a declared name or a paired table; otherwise it is a variable, function or table, in that order of tests |
| ReferenceClassifier.ClassifySimple | src/PyDAX/DAXExpression.py:332-356 | pass 3 gives the table, variable and function references in stream order |
| ReferenceClassifier.ScanReferences | src/PyDAX/DAXExpression.py:287-356 | the three passes give the artifact list and the three simple reference lists |
| ReferenceProperties.EveryColumnOnce | src/PyDAX/DAXExpression.py:291-329 | every column token yields exactly one artifact reference and nothing else yields one |
| ReferenceProperties.ArtifactsAtColumns | src/PyDAX/DAXExpression.py:311 | the k-th artifact reference carries the token at the k-th recorded column position |
| ReferenceProperties.QualifiedLink | src/PyDAX/DAXExpression.py:294-318 | each qualified reference is built from its column and the table token that pairs it: that column token, that table token, the table token's cleaned name and the column text without brackets |
| ReferenceProperties.StandaloneLink | src/PyDAX/DAXExpression.py:321-329 | each unqualified reference is built from its unpaired column token |
| ReferenceProperties.QualifiedCount | src/PyDAX/DAXExpression.py:303-312 | a column is listed by pass 1 once if a table pairs it, otherwise never |
| ReferenceProperties.StandaloneCount | src/PyDAX/DAXExpression.py:321-322 | a column is listed by pass 2 once if unpaired, otherwise never |
| ReferenceProperties.KindLink | src/PyDAX/DAXExpression.py:332-356 | each simple reference is built from the token at a position classified as its kind |
| ReferenceProperties.KindCount | src/PyDAX/DAXExpression.py:332-356 | each position appears in the list of its kind once, and in no other |
| ReferenceProperties.SimpleReferencesPartition | src/PyDAX/DAXExpression.py:332-356 | a table-like token that is neither a declared name nor paired with a column yields exactly one simple reference, every other token none; it is a variable iff it is a TABLE_OR_VARIABLE whose cleaned name is a declared variable's, and a function iff it is a TABLE_OR_VARIABLE whose name is not declared and that is followed by `(` |
| TokenScans.FlagTokensOfType | src/PyDAX/best_practices_rules/use_divide.py:35-41 | the scan's list is every token of the given type, in stream order; the DIV, IFERROR, INTERSECT, EVALUATEANDLOG and both FILTER rules run this same scan |
| TokenScans.FlaggedExactlyOnce | src/PyDAX/best_practices_rules/use_divide.py:37-41 | the k-th flagged token is the token at the k-th position of the type, and the number flagged is the number of those positions |
| TokenScans.FlaggedAppend | src/PyDAX/best_practices_rules/use_divide.py:37-41 | flagging `a + b` flags `a`'s tokens then `b`'s |
| TokenScans.ContainsType | src/PyDAX/utils.py:6-14 | true iff some token of the stream has the type; an empty stream gives false |
| TokenScans.ContainsIffFlagged | src/PyDAX/utils.py:10-14 | the existence test holds iff the single-token rule for that type has a violator |
| TokenScans.DivByZeroFlagsOnce | tests/test_use_divide.py:23-29 | a literal divided by zero flags exactly its `/` |
| TokenScans.OneDivZeroFlagsOnce | tests/test_use_divide.py:4-9 | `1 / 0` flags exactly its `/` |
| TokenScans.DivideExampleSingle | tests/test_use_divide.py:4-9 | `1 / 0` has one violator, whose text is `/` |
| TokenScans.DivideExampleTwice | tests/test_use_divide.py:23-29 | `1 / 0 + 2 / 0` has exactly two violators, its two `/` tokens, in order |
| TokenScans.DivideExampleCall | tests/test_use_divide.py:13-19 | `DIVIDE(1, 0)` has none |
| UnusedVariables.ScannedTokens | src/PyDAX/best_practices_rules/unused_variables.py:32-37 | only default-channel tokens and VAR tokens are kept |
| UnusedVariables.CollectScanned | src/PyDAX/best_practices_rules/unused_variables.py:32-37 | the loop keeps exactly those tokens, in order |
| UnusedVariables.DefsRecorded | src/PyDAX/best_practices_rules/unused_variables.py:43-54 | the keys are distinct and in first-insertion order; each records a TABLE_OR_VARIABLE right after a VAR whose lower-cased text is the key, at or after every other such declaration |
| UnusedVariables.CollectDefinitions | src/PyDAX/best_practices_rules/unused_variables.py:43-54 | the loop, which jumps over the name it records, builds that table |
| UnusedVariables.UsedUpTo | src/PyDAX/best_practices_rules/unused_variables.py:60-65 | a key is used iff some TABLE_OR_VARIABLE with that key is not its recorded declaration token |
| UnusedVariables.CollectUses | src/PyDAX/best_practices_rules/unused_variables.py:60-65 | the loop builds that set |
| UnusedVariables.UnusedListed | src/PyDAX/best_practices_rules/unused_variables.py:67-69 | the list holds the recorded token of every unused key, and nothing else |
| UnusedVariables.ListUnused | src/PyDAX/best_practices_rules/unused_variables.py:67-69 | the loop builds that list in key order |
| UnusedVariables.FindUnusedVariables | src/PyDAX/best_practices_rules/unused_variables.py:29-71 | the rule's scan, phase by phase, gives the violators of the specification |
| UnusedVariables.RecordedIsLast | src/PyDAX/best_practices_rules/unused_variables.py:46-54 | a declaration is the recorded one iff no later declaration has its key |
| UnusedVariables.ViolatorsAreUnusedLastDeclarations | src/PyDAX/best_practices_rules/unused_variables.py:60-69 | a token is a violator iff it is the last declaration of its name and no other TABLE_OR_VARIABLE token has that name |
| UnusedVariables.ViolatorIsUnusedLast | src/PyDAX/best_practices_rules/unused_variables.py:60-69 | every violator is such a declaration |
| UnusedVariables.UnusedLastIsViolator | src/PyDAX/best_practices_rules/unused_variables.py:60-69 | every such declaration is a violator |
| UnusedVariables.RedeclarationIsUse | src/PyDAX/best_practices_rules/unused_variables.py:60-65 | a name declared twice is never reported, because the earlier declaration counts as a use |
| UnusedVariables.NoDeclarationNoViolators | src/PyDAX/best_practices_rules/unused_variables.py:56-58 | without a declaration there is no violator |
| UnusedVariables.ViolatorsBounded | src/PyDAX/best_practices_rules/unused_variables.py:67-69 | there are at most as many violators as distinct declared names |
| UnusedVariables.UnscannedIgnored | src/PyDAX/best_practices_rules/unused_variables.py:34-36 | inserting a token that is neither on the default channel nor VAR changes nothing |
| OneMinusDivision.Window | src/PyDAX/best_practices_rules/avoid_one_minus_division.py:34-39 | the window holds default-channel tokens only |
| OneMinusDivision.CollectWindow | src/PyDAX/best_practices_rules/avoid_one_minus_division.py:34-39 | the loop keeps exactly the default-channel tokens, in order |
| OneMinusDivision.Strip | src/PyDAX/best_practices_rules/avoid_one_minus_division.py:43 | the result is no longer than the text, does not start or end with whitespace, and is the text itself when that has none at its ends |
| OneMinusDivision.StripSlice | src/PyDAX/best_practices_rules/avoid_one_minus_division.py:43 | the result is a slice of the text, and everything cut off before and after it is whitespace |
| OneMinusDivision.AnyDiv | src/PyDAX/best_practices_rules/avoid_one_minus_division.py:54-56 | true iff a DIV lies in the slice |
| OneMinusDivision.CheckAt | src/PyDAX/best_practices_rules/avoid_one_minus_division.py:41-57 | true iff the token is a literal denoting one, `i+2` is inside the window, the next token is `+` or `-`, and a DIV lies in positions `i+2` up to `i+11` |
| OneMinusDivision.ViolatorsUpTo | src/PyDAX/best_practices_rules/avoid_one_minus_division.py:40-58 | at most one violator per position, each a `+` or `-` |
| OneMinusDivision.FindOneMinusDivision | src/PyDAX/best_practices_rules/avoid_one_minus_division.py:31-59 | the rule's scan gives the violators of the specification |
| OneMinusDivision.FlaggedPositions | src/PyDAX/best_practices_rules/avoid_one_minus_division.py:40-58 | the flagged literal positions lie below the bound and strictly increase |
| OneMinusDivision.FlaggedPositionsExact | src/PyDAX/best_practices_rules/avoid_one_minus_division.py:40-58 | a position below the bound is listed iff its literal flags its operator |
| OneMinusDivision.OneViolatorPerLiteral | src/PyDAX/best_practices_rules/avoid_one_minus_division.py:40-58 | the k-th violator is the operator right after the k-th flagged literal, so each literal contributes one, left to right |
| OneMinusDivision.FlagIsLocal | src/PyDAX/best_practices_rules/avoid_one_minus_division.py:51-56 | whether a literal flags depends only on the twelve tokens from it on |
| OneMinusDivision.OffDefaultIgnored | src/PyDAX/best_practices_rules/avoid_one_minus_division.py:37-38 | inserting a token off the default channel changes nothing |
| OneMinusDivision.NoFlagNoViolator | src/PyDAX/best_practices_rules/avoid_one_minus_division.py:40-58 | positions that do not flag add no violator |
| OneMinusDivision.OneDenotesOne | src/PyDAX/best_practices_rules/avoid_one_minus_division.py:43-46 | the literal `1` denotes one |
| OneMinusDivision.LiteralOneFlags | src/PyDAX/best_practices_rules/avoid_one_minus_division.py:42-57 | a `1` followed by `+` or `-` and a DIV within ten tokens after the operator flags |
| OneMinusDivision.FlagsAtZeroAndEight | src/PyDAX/best_practices_rules/avoid_one_minus_division.py:40-58 | in a 15-token window where only positions 0 and 8 flag, the violators are the operators at 1 and 9 |
| OneMinusDivisionExamples.TwoPatternsFirstLiteralFlags | tests/test_avoid_one_minus_division.py:30-36 | the first `1` of `1 - (a / b) + 1 + (c / d)` flags |
| OneMinusDivisionExamples.TwoPatternsSecondLiteralFlags | tests/test_avoid_one_minus_division.py:30-36 | the second `1` flags |
| OneMinusDivisionExamples.TwoPatternsOthersDoNotFlag | tests/test_avoid_one_minus_division.py:30-36 | no other position flags |
| OneMinusDivisionExamples.TwoPatternsFlagTwice | tests/test_avoid_one_minus_division.py:30-36 | the expression has exactly two violators, the `-` and the second `+` |
| BestPracticeRules.Catalog | src/PyDAX/DAXExpression.py:98-107 | eight distinct rule kinds, none of them the base rule, in declaration order |
| BestPracticeRules.ConstructWithLexer | src/PyDAX/DAXExpression.py:133-141 | building rules one after another with `lexer=` succeeds iff every kind accepts it, and then gives those kinds; otherwise a TypeError is raised at the first kind that does not, every earlier one having accepted it |
| BestPracticeRules.CatalogConstructionFails | src/PyDAX/DAXExpression.py:133-141 | as written, building the catalogue raises the TypeError at INTERSECT's rule, the third, whatever the expression |
| BestPracticeRules.CatalogMetadata | src/PyDAX/best_practices_rules/use_divide.py:6-13 | every catalogue rule has category `DAX Expressions`; severity is the number 2 for the DIVIDE and IFERROR rules, the text `1` for the EVALUATEANDLOG rule and the text `2` for the others |
| BestPracticeRules.BestPracticeRule.constructor | src/PyDAX/best_practices_rules/best_practice_rule.py:7-18 | the metadata is kept; a new rule is not verified and has no violator |
| BestPracticeRules.BestPracticeRule.Make | src/PyDAX/best_practices_rules/use_divide.py:18-28 | a catalogue rule gets its kind's metadata, is not verified and has no violator |
| BestPracticeRules.BestPracticeRule.Violated | src/PyDAX/best_practices_rules/best_practice_rule.py:29-31 | true iff the violator list is not empty |
| BestPracticeRules.BestPracticeRule.NumberOfViolations | src/PyDAX/best_practices_rules/best_practice_rule.py:33-35 | zero iff the rule is not violated |
| BestPracticeRules.BestPracticeRule.ClearViolations | src/PyDAX/best_practices_rules/best_practice_rule.py:38-39 | the violator list is empty and the verification flag unchanged |
| BestPracticeRules.BestPracticeRule.VerifyViolation | src/PyDAX/best_practices_rules/use_divide.py:31-43 | the base rule fails and changes nothing; any catalogue rule (single-token, unused-variables, one-minus) is verified afterwards and its violators are its scan's, whatever they were before |
| BestPracticeRules.SingleTokenRuleFlagsEachOnce | src/PyDAX/best_practices_rules/use_divide.py:37-41 | each token of the rule's type is flagged exactly once, in order, and a violator exists iff such a token does; this holds for the DIV, IFERROR, INTERSECT, EVALUATEANDLOG and both FILTER rules |
| BestPracticeRules.VerifyTwice | src/PyDAX/best_practices_rules/use_divide.py:33 | verifying twice leaves the same violators as verifying once |
| DaxExpressions.Coerce | src/PyDAX/DAXExpression.py:16 | anything that is not a string becomes the empty text; a string is kept |
| DaxExpressions.DeclareAt | src/PyDAX/DAXExpression.py:173-209 | at a VAR keyword: the name search result, the position where the binding ends, and, when named, a variable recording that declaration |
| DaxExpressions.DetectAt | src/PyDAX/DAXExpression.py:173-212 | one step of the scan keeps the recorded variables and name positions equal to the declarations so far |
| DaxExpressions.DetectVariables | src/PyDAX/DAXExpression.py:161-215 | the variables record the declarations one for one, in order; the set returned is exactly their name positions |
| DaxExpressions.RecordedNames | src/PyDAX/DAXExpression.py:342 | the variables' names are the declared names, so the variable test of pass 3 sees the declarations |
| DaxExpressions.SumViolated | src/PyDAX/DAXExpression.py:119-127 | the total is zero iff no rule is violated |
| DaxExpressions.VerifiedTotal | src/PyDAX/DAXExpression.py:119-127 | once every rule holds its scan's violators, the total is the sum of the violator counts of their kinds |
| DaxExpressions.NewRule | src/PyDAX/DAXExpression.py:135 | a fresh, unverified catalogue rule of the kind over the stream |
| DaxExpressions.DaxExpression.constructor | src/PyDAX/DAXExpression.py:14-46 | text coerced; comment-free text, comments and clean text are those of the stream; variables and references are one extraction; the rules are the catalogue, verified iff asked |
| DaxExpressions.FindReferences | src/PyDAX/DAXExpression.py:267-356 | one extraction over the stream: the variables record the code stream's declarations one for one, in order, and the reference lists are those the three passes produce |
| DaxExpressions.NewCatalog | src/PyDAX/DAXExpression.py:133-141 | eight fresh rules, one per catalogue kind in declaration order, over the stream, unverified and empty |
| DaxExpressions.VerifyAll | src/PyDAX/DAXExpression.py:144-146 | after the loop every rule holds the violators its scan finds in its stream |
| DaxExpressions.VerifiedCatalogScans | tests/test_use_treatas_instead_of_intersect.py:4-9 | in a verified catalogue every rule that scans for one token type lists exactly that type's tokens, INTERSECT's and EVALUATEANDLOG's rules included |
| DaxExpressions.DaxExpression.ExtractReferences | src/PyDAX/DAXExpression.py:267-356 | as written: variables detected afresh, but each reference list becomes its old contents followed by one extraction |
| DaxExpressions.DaxExpression.RefreshReferences | src/PyDAX/DAXExpression.py:267-356 | corrected: each reference list is exactly one extraction, whatever it held before |
| DaxExpressions.DaxExpression.InitBestPracticesRules | src/PyDAX/DAXExpression.py:133-142 | eight fresh rules of the catalogue's kinds over the stream, unverified and empty |
| DaxExpressions.DaxExpression.VerifyBestPractices | src/PyDAX/DAXExpression.py:144-146 | every rule is verified and holds its scan's violators |
| DaxExpressions.DaxExpression.NumberOfViolations | src/PyDAX/DAXExpression.py:119-127 | zero iff no rule is violated; after verification, the number of violators the catalogue's scans find |
| DaxExpressions.OneColumnExtracted | src/PyDAX/DAXExpression.py:320-329 | `[Sales]` alone yields one artifact reference |
| DaxExpressions.ExtractTwiceDuplicates | src/PyDAX/DAXExpression.py:267-356 | a second extraction on `[Sales]` lists the column twice |
| DaxProcessors.DaxProcessor.constructor | src/PyDAX/DAXProcessor.py:7-11 | the text and its tokens are kept |
| DaxProcessors.DaxProcessor.ExtractComments | src/PyDAX/DAXProcessor.py:13-28 | the comment texts, in order |
| DaxProcessors.DaxProcessor.RemoveComments | src/PyDAX/DAXProcessor.py:30-45 | the concatenated non-comment texts |
| DaxProcessors.DaxProcessor.ExtractColumnsMeasures | src/PyDAX/DAXProcessor.py:47-62 | the raw text, brackets kept, of every column or measure token on any channel, in order |
| DaxProcessors.ColumnsInOrder | src/PyDAX/DAXProcessor.py:57-60 | the k-th listed text is the text of the k-th column token |
| DaxProcessors.ColumnsMatchArtifacts | src/PyDAX/DAXProcessor.py:53-62 | given the same code-channel tokens, the processor lists as many columns as the expression makes artifact references |
| DaxProcessors.PairAfterTable | src/PyDAX/DAXProcessor.py:74-81 | at a TABLE: the pair with the column after an optional `(`, if there is one, and the cursor moved past the token examined |
| DaxProcessors.ScanTableColumnPairs | src/PyDAX/DAXProcessor.py:70-84 | the cursor loop, jumping past the token examined after each TABLE, gives the pairs the cursor specification emits, in order |
| DaxProcessors.ScanFromPairs | src/PyDAX/DAXProcessor.py:70-84 | the running scan ends with what it holds followed by every pair still ahead of the cursor |
| DaxProcessors.DaxProcessor.ExtractTableColumnReferences | src/PyDAX/DAXProcessor.py:64-84 | the pairs the cursor emits, raw texts, in order |
| DaxProcessors.EmittedPairsAreReached | src/PyDAX/DAXProcessor.py:73-82 | every emitted pair is a TABLE at a position the cursor stops at, with its column |
| DaxProcessors.ReachedPairsAreEmitted | src/PyDAX/DAXProcessor.py:73-82 | every TABLE the cursor stops at that has its column is emitted |
| DaxProcessors.ExaminedTokenIsConsumed | src/PyDAX/DAXProcessor.py:76-82 | the cursor never stops at the tokens it examines after a TABLE, so they cannot start a pair |
| DaxProcessors.ProcessorPairIsQualified | src/PyDAX/DAXProcessor.py:74-81 | a pair the processor finds is one the expression's first pass makes too |
| DaxProcessors.TableTableColumnYieldsNothing | src/PyDAX/DAXProcessor.py:76-82 | TABLE TABLE COLUMN yields no pair, although the second TABLE has its column |

## Left out

- The lexer itself: the token list is an input. The model does not tie it to the text.
- HTML generation and violation highlighting (`generate_html`, `save_html_to_file`, `generate_html_with_violations`): presentation and file output.
- `print_tokens`, `print_best_practices_violations` and every `__str__`: console output.
- Pickling (`__getstate__`, `__setstate__` of the expression and of rules): persistence and re-lexing on load.
- The deprecated `contains_div` property: a warning wrapper around `check_contains_function`, which is modelled as `TokenScans.ContainsType`.
- `highlight_tokens` of the INTERSECT and EVALUATEANDLOG rules: the attribute is never initialised by the base class, so it is not modelled.
- DaxExpressions.DaxExpression.constructor: models the construction the tests expect, not the code as written. `init_best_practices_rules` passes `lexer=` to every rule, but the INTERSECT and EVALUATEANDLOG rules declare `__init__(self)`, so every `DAXExpression(...)` raises TypeError (modelled by BestPracticeRules.ConstructWithLexer; see "## Findings").
- DaxExpressions.DaxExpression.InitBestPracticesRules: builds all eight rules over the expression's stream; as written, it raises TypeError at the INTERSECT rule.
- DaxExpressions.NewCatalog: gives every rule the expression's stream. As written, the INTERSECT and EVALUATEANDLOG rules would get no lexer, and their base `__init__` call also omits the required `lexer`.
- DaxExpressions.VerifyAll: runs every rule's scan on its stream. As written, `verify_best_practices` calls `verify_violation()` without the lexer that the INTERSECT and EVALUATEANDLOG rules' `verify_violation(self, lexer)` requires.
- The reference subclasses `DAXArtifactReference` and `DAXTableReference` (and their files) are not part of this model: their equality by names alone, tokens excluded, is taken from `DAXReference.__eq__` and the project's description.
- The snapshot/raw distinction: some rules keep `DAXToken` snapshots and others raw tokens. Violator lists hold token values throughout.
- `unknown_references` is declared but never filled, so it is not modelled.
- Relationship references are not part of this model.
- OneMinusDivision.DenotesOne: Python's `float(txt) == 1.0` is modelled for plain decimal text (zeros, `1`, optionally `.` and zeros). Exponents, underscores and decimals that round to 1.0 are left out.
- Tokens.Upper: `str.upper()`/`str.lower()` are modelled on ASCII letters only; Unicode case mapping is left out.
- DaxExpressions.DaxExpression.constructor: its input is the lexed token list. The correspondence between text and tokens is the lexer's and is not stated.
- BestPracticeRules.BestPracticeRule.Make: the long name and description strings are kept in the metadata, but the contract states only category and severity.

## Findings

| source | as written | input that shows it | evidently intended | confidence | as-written member | corrected member |
|---|---|---|---|---|---|---|
| src/PyDAX/DAXExpression.py:267-356 | `extract_references` re-detects the variables (`detect_variables` starts from an empty list) but appends to the reference lists without emptying them | calling `extract_references()` again on the expression `[Sales]` | re-running the extraction yields the same, order-stable lists | medium, not executed: the constructor calls it once, so only a second explicit call shows it | DaxExpressions.DaxExpression.ExtractReferences, DaxExpressions.ExtractTwiceDuplicates | DaxExpressions.DaxExpression.RefreshReferences |
| src/PyDAX/DAXExpression.py:133-146 | `init_best_practices_rules` passes `lexer=` to all eight rules, but the INTERSECT and EVALUATEANDLOG rules' `__init__` takes no argument; `verify_best_practices` then calls `verify_violation()` without the lexer those two rules require | any expression, e.g. `DAXExpression("INTERSECT(Table1, Table2)")` from tests/test_use_treatas_instead_of_intersect.py:4-9: building the third rule raises TypeError | every rule is built over the expression's tokens and lists the tokens of its type, as tests/test_use_treatas_instead_of_intersect.py:4-9 and tests/test_evaluatelog_rule.py:4-10 expect | high, not executed | BestPracticeRules.ConstructWithLexer, BestPracticeRules.CatalogConstructionFails | DaxExpressions.NewCatalog, DaxExpressions.VerifiedCatalogScans |
