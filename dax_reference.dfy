/**
 * DAXReference and the reference records the classifier emits. Every
 * reference compares by name only; the tokens it carries are left out of
 * equality and hashing.
 */
module DaxReferences {
  import opened Tokens
  import opened Wrappers

  /** A `(table_name, artifact_name)` pair, equal when both names are. */
  datatype DaxReference = DaxReference(tableName: string, artifactName: string) {

    /** `__str__`: `'<table>'[<artifact>]`. */
    function ToString(): (s: string)
      ensures |s| == |tableName| + |artifactName| + 4
      ensures s[0] == '\'' && s[|tableName| + 1] == '\'' && s[|tableName| + 2] == '[' && s[|s| - 1] == ']'
      ensures s[1..|tableName| + 1] == tableName && s[|tableName| + 3..|s| - 1] == artifactName
    {
      "'" + tableName + "'[" + artifactName + "]"
    }

    /** The tuple `__hash__` hashes. */
    function HashKey(): (string, string) {
      (tableName, artifactName)
    }

    /** `__eq__`: false for anything but a DAXReference, otherwise both names agree. */
    predicate Equals(value: Compared) {
      match value
      case Ref(other) => tableName == other.tableName && artifactName == other.artifactName
      case Other => false
    }
  }

  /** The right operand of `==`: a DAXReference, or a value of any other type. */
  datatype Compared = Ref(ref: DaxReference) | Other

  /** A column or measure reference; `tableName` is empty when it is unqualified. */
  datatype ArtifactReference = ArtifactReference(tableName: string, artifactName: string,
                                                 artifactToken: Token, tableToken: Option<Token>) {
    function Names(): DaxReference {
      DaxReference(tableName, artifactName)
    }

    /** Equality ignores the tokens. */
    predicate Equals(other: ArtifactReference) {
      Names() == other.Names()
    }
  }

  /** A table, variable, function or unknown reference: a name and the token it was read from. */
  datatype SimpleReference = SimpleReference(name: string, token: Token) {
    predicate Equals(other: SimpleReference) {
      name == other.name
    }
  }

  /**
   * `__eq__` and `__hash__` agree: a reference equals exactly the
   * references with its hash pair, and nothing that is not a reference.
   */
  lemma HashConsistent(a: DaxReference, value: Compared)
    ensures a.Equals(value) <==> value.Ref? && a.HashKey() == value.ref.HashKey()
    ensures a.Equals(value) <==> value == Ref(a)
  {
  }

  /** The tokens an artifact reference carries play no part in its equality. */
  lemma TokensIgnored(a: ArtifactReference, artifactToken: Token, tableToken: Option<Token>)
    ensures a.Equals(a.(artifactToken := artifactToken, tableToken := tableToken))
    ensures a.Names().Equals(Ref(a.(artifactToken := artifactToken, tableToken := tableToken).Names()))
  {
  }

  /** Reads a reference back from its `'<table>'[<artifact>]` rendering. */
  function ParseReference(s: string): Option<DaxReference> {
    if |s| < 4 || s[0] != '\'' || s[|s| - 1] != ']' then None
    else
      var q := IndexOf(s, '\'', 1);
      if q + 2 < |s| && s[q + 1] == '[' then Some(DaxReference(s[1..q], s[q + 2..|s| - 1]))
      else None
  }

  /** The rendering loses nothing when the table name holds no quote. */
  lemma ToStringRoundTrip(r: DaxReference)
    requires '\'' !in r.tableName
    ensures ParseReference(r.ToString()) == Some(r)
  {
    var s := r.ToString();
    var n := |r.tableName|;
    forall m | 1 <= m < n + 1
      ensures s[m] != '\''
    {
      assert s[m] == r.tableName[m - 1];
    }
    assert IndexOf(s, '\'', 1) == n + 1;
  }

  /** A quote followed by `[` inside a table name makes two different references render alike. */
  lemma ToStringNotInjective()
    ensures DaxReference("x'[y", "z").ToString() == DaxReference("x", "y'[z").ToString()
  {
  }
}
