/**
 * DAXVariable: a declared variable with its name, the snapshot of its name
 * token, of its VAR keyword and, when the binding is not empty, of the last
 * token of its bound expression.
 */
module DaxVariables {
  import opened Tokens
  import opened Wrappers
  import opened DaxTokens

  class DaxVariable {
    const name: string
    const token: DaxToken
    const varKeywordToken: DaxToken
    const lastExpressionToken: DaxToken?

    /** The name is kept as given and every token is wrapped in a new snapshot. */
    constructor (name: string, token: Token, varKeywordToken: Token, lastExpressionToken: Option<Token>)
      ensures this.name == name
      ensures this.token.Snapshots(token) && this.varKeywordToken.Snapshots(varKeywordToken)
      ensures this.lastExpressionToken == null <==> lastExpressionToken.None?
      ensures lastExpressionToken.Some? ==> this.lastExpressionToken != null && this.lastExpressionToken.Snapshots(lastExpressionToken.value)
      ensures fresh(this.token) && fresh(this.varKeywordToken)
      ensures this.lastExpressionToken != null ==> fresh(this.lastExpressionToken)
      ensures this.token != this.varKeywordToken
    {
      this.name := name;
      this.token := new DaxToken(token);
      this.varKeywordToken := new DaxToken(varKeywordToken);
      if lastExpressionToken.Some? {
        this.lastExpressionToken := new DaxToken(lastExpressionToken.value);
      } else {
        this.lastExpressionToken := null;
      }
    }

    /** `__eq__`: another DaxVariable with the same name and the very same three snapshots. */
    predicate Equals(other: object?) {
      other is DaxVariable &&
      var o := other as DaxVariable;
      name == o.name && token == o.token && varKeywordToken == o.varKeywordToken &&
      lastExpressionToken == o.lastExpressionToken
    }

    /** The tuple `__hash__` hashes. */
    function HashKey(): (string, DaxToken, DaxToken, DaxToken?) {
      (name, token, varKeywordToken, lastExpressionToken)
    }
  }

  /** Equal variables have equal hash keys, and nothing but a DaxVariable is equal to one. */
  lemma HashConsistent(a: DaxVariable, other: object?)
    ensures a.Equals(other) ==> other is DaxVariable && a.HashKey() == (other as DaxVariable).HashKey()
    ensures !(other is DaxVariable) ==> !a.Equals(other)
  {
  }

  /**
   * Because each construction snapshots its tokens afresh, two variables
   * built from the same arguments are never equal; only a variable and
   * itself are.
   */
  method ConstructTwice(name: string, t: Token, kw: Token, last: Option<Token>)
    returns (twoEqual: bool, selfEqual: bool)
    ensures !twoEqual && selfEqual
  {
    var a := new DaxVariable(name, t, kw, last);
    var b := new DaxVariable(name, t, kw, last);
    twoEqual := a.Equals(b);
    selfEqual := a.Equals(a);
  }
}
