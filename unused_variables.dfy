/**
 * The UNUSED_VARIABLES rule: a variable declared with `VAR` whose name is
 * never referenced again is flagged at its (last) declaration.
 *
 * The rule scans the default-channel tokens and the VAR tokens. A
 * declaration is a VAR immediately followed by a TABLE_OR_VARIABLE token;
 * declarations are keyed by the lower-cased name, a later declaration of
 * the same name replaces the recorded one but keeps the key's place, and
 * a use is any other TABLE_OR_VARIABLE token with that key.
 */
module UnusedVariables {
  import opened Tokens

  /** The tokens the rule looks at. */
  predicate Scanned(t: Token) {
    t.channel == Default || t.ttype == Var
  }

  function ScannedTokens(ts: seq<Token>): (s: seq<Token>)
    ensures forall t :: t in s ==> Scanned(t)
  {
    Select(ts, Scanned)
  }

  /** Position `p` of the scanned list is the name of a declaration `VAR <name>`. */
  predicate NameAt(s: seq<Token>, p: int) {
    1 <= p < |s| && s[p - 1].ttype == Var && s[p].ttype == TableOrVariable
  }

  /** The key of a name token. */
  function Key(t: Token): string {
    Lower(t.text)
  }

  /** The declaration table: keys in first-insertion order and each key's recorded name position. */
  datatype Defs = Defs(keys: seq<string>, at: map<string, nat>)

  /** Records a declaration; an existing key keeps its place and gets the new position. */
  function Declare(d: Defs, key: string, p: nat): Defs {
    if key in d.at then Defs(d.keys, d.at[key := p]) else Defs(d.keys + [key], d.at[key := p])
  }

  /**
   * `d` is the table of the declarations below `m`: distinct keys, each
   * recording a declaration of its name, at or after every other one.
   */
  ghost predicate Recorded(s: seq<Token>, d: Defs, m: nat) {
    (forall a, b :: 0 <= a < b < |d.keys| ==> d.keys[a] != d.keys[b]) &&
    (forall k :: k in d.at <==> k in d.keys) &&
    (forall k :: k in d.at ==> d.at[k] < m && NameAt(s, d.at[k]) && Key(s[d.at[k]]) == k) &&
    (forall p :: 0 <= p < m && NameAt(s, p) ==> Key(s[p]) in d.at && p <= d.at[Key(s[p])])
  }

  /** The declaration table after the scanned positions below `m`. */
  function DefsUpTo(s: seq<Token>, m: nat): Defs
    requires m <= |s|
  {
    if m == 0 then Defs([], map[]) else Step(s, DefsUpTo(s, m - 1), m)
  }

  /** The table after examining position `m - 1`: a declaration there is recorded. */
  function Step(s: seq<Token>, d: Defs, m: nat): Defs
    requires 0 < m <= |s|
  {
    if NameAt(s, m - 1) then Declare(d, Key(s[m - 1]), m - 1) else d
  }

  /** The table after `m` positions records exactly the declarations below `m`. */
  lemma {:induction false} DefsRecorded(s: seq<Token>, m: nat)
    requires m <= |s|
    ensures Recorded(s, DefsUpTo(s, m), m)
  {
    if m > 0 {
      DefsRecorded(s, m - 1);
      DeclareStep(s, DefsUpTo(s, m - 1), m);
    }
  }

  /** Declaring keeps the keys distinct and the map's domain equal to them. */
  lemma DeclareKeys(s: seq<Token>, d: Defs, m: nat)
    requires 0 < m <= |s| && NameAt(s, m - 1)
    requires forall a, b :: 0 <= a < b < |d.keys| ==> d.keys[a] != d.keys[b]
    requires forall k :: k in d.at <==> k in d.keys
    ensures var d' := Step(s, d, m);
            (forall a, b :: 0 <= a < b < |d'.keys| ==> d'.keys[a] != d'.keys[b]) &&
            (forall k :: k in d'.at <==> k in d'.keys)
  {
    var key := Key(s[m - 1]);
    if key !in d.at {
      assert forall a :: 0 <= a < |d.keys| ==> d.keys[a] != key;
    }
  }

  /** Declaring the name at `m - 1` keeps every key pointing at a declaration of that key. */
  lemma DeclarePoints(s: seq<Token>, d: Defs, m: nat)
    requires 0 < m <= |s| && NameAt(s, m - 1)
    requires forall k :: k in d.at ==> d.at[k] < m - 1 && NameAt(s, d.at[k]) && Key(s[d.at[k]]) == k
    ensures var d' := Step(s, d, m);
            forall k :: k in d'.at ==> d'.at[k] < m && NameAt(s, d'.at[k]) && Key(s[d'.at[k]]) == k
  {
  }

  /** Declaring the name at `m - 1` keeps every declaration at or before its key's record. */
  lemma DeclareCovers(s: seq<Token>, d: Defs, m: nat)
    requires 0 < m <= |s| && NameAt(s, m - 1)
    requires forall p :: 0 <= p < m - 1 && NameAt(s, p) ==> Key(s[p]) in d.at && p <= d.at[Key(s[p])]
    ensures var d' := Step(s, d, m);
            forall p :: 0 <= p < m && NameAt(s, p) ==> Key(s[p]) in d'.at && p <= d'.at[Key(s[p])]
  {
    var key := Key(s[m - 1]);
    var d' := Declare(d, key, m - 1);
    assert key in d'.at && d'.at[key] == m - 1;
    forall p | 0 <= p < m && NameAt(s, p)
      ensures Key(s[p]) in d'.at && p <= d'.at[Key(s[p])]
    {
      if p < m - 1 && Key(s[p]) != key {
        assert d'.at[Key(s[p])] == d.at[Key(s[p])];
      }
    }
  }

  /** The table facts of `DefsUpTo` at `m - 1` carry over to `m`. */
  lemma DeclareStep(s: seq<Token>, d: Defs, m: nat)
    requires 0 < m <= |s| && Recorded(s, d, m - 1)
    ensures Recorded(s, Step(s, d, m), m)
  {
    if NameAt(s, m - 1) {
      DeclareKeys(s, d, m);
      DeclarePoints(s, d, m);
      DeclareCovers(s, d, m);
    }
  }

  /** Position `q` refers to a declared name without being its recorded declaration. */
  predicate IsUse(s: seq<Token>, d: Defs, q: nat)
    requires q < |s|
  {
    s[q].ttype == TableOrVariable && Key(s[q]) in d.at && d.at[Key(s[q])] != q
  }

  /** The keys used at the scanned positions below `m`. */
  function UsedUpTo(s: seq<Token>, d: Defs, m: nat): (used: set<string>)
    requires m <= |s|
    ensures forall k :: k in used <==> exists q :: 0 <= q < m && IsUse(s, d, q) && Key(s[q]) == k
  {
    if m == 0 then {}
    else UsedUpTo(s, d, m - 1) + (if IsUse(s, d, m - 1) then {Key(s[m - 1])} else {})
  }

  /** Well-formed declaration tables point into the scanned list. */
  ghost predicate Points(s: seq<Token>, d: Defs) {
    (forall k :: k in d.at <==> k in d.keys) && (forall k :: k in d.at ==> d.at[k] < |s|)
  }

  /** The recorded declaration tokens of the first `m` keys that are not used, in key order. */
  function UnusedUpTo(s: seq<Token>, d: Defs, used: set<string>, m: nat): (r: seq<Token>)
    requires m <= |d.keys| && Points(s, d)
    ensures |r| <= m
  {
    if m == 0 then []
    else
      var k := d.keys[m - 1];
      UnusedUpTo(s, d, used, m - 1) + (if k !in used then [s[d.at[k]]] else [])
  }

  /** The list holds the recorded token of every unused key among the first `m`, and nothing else. */
  lemma {:induction false} UnusedListed(s: seq<Token>, d: Defs, used: set<string>, m: nat)
    requires m <= |d.keys| && Points(s, d)
    ensures forall a :: 0 <= a < m && d.keys[a] !in used ==> s[d.at[d.keys[a]]] in UnusedUpTo(s, d, used, m)
    ensures forall t :: t in UnusedUpTo(s, d, used, m) ==>
              exists a :: 0 <= a < m && d.keys[a] !in used && t == s[d.at[d.keys[a]]]
  {
    if m > 0 {
      UnusedListed(s, d, used, m - 1);
    }
  }

  /** The violators of the rule on the stream `ts`. */
  function UnusedViolators(ts: seq<Token>): seq<Token> {
    var s := ScannedTokens(ts);
    var d := DefsUpTo(s, |s|);
    DefsRecorded(s, |s|);
    UnusedUpTo(s, d, UsedUpTo(s, d, |s|), |d.keys|)
  }

  // ---------------------------------------------------------------------
  // The rule's scan, phase by phase.

  /** Keeps the default-channel tokens and the VAR tokens, in order. */
  method CollectScanned(ts: seq<Token>) returns (s: seq<Token>)
    ensures s == ScannedTokens(ts)
  {
    s := [];
    var i := 0;
    while i < |ts|
      invariant i <= |ts|
      invariant s == Select(ts[..i], Scanned)
    {
      SelectSnoc(ts, i, Scanned);
      if ts[i].channel == Default || ts[i].ttype == Var {
        s := s + [ts[i]];
      }
      i := i + 1;
    }
    assert ts[..i] == ts;
  }

  /** The declaration loop: after a declaration the cursor skips the name token. */
  method CollectDefinitions(s: seq<Token>) returns (d: Defs)
    ensures d == DefsUpTo(s, |s|)
  {
    d := Defs([], map[]);
    var n := |s|;
    var i := 0;
    while i < n
      invariant i <= n
      invariant !NameAt(s, i)
      invariant d == DefsUpTo(s, i)
    {
      if s[i].ttype == Var {
        var j := i + 1;
        if j < n && s[j].ttype == TableOrVariable {
          assert DefsUpTo(s, j) == d;
          d := Declare(d, Key(s[j]), j);
          assert d == DefsUpTo(s, j + 1);
          i := j;
        }
      }
      i := i + 1;
    }
  }

  /** The use loop: collects the keys referred to other than at their recorded declaration. */
  method CollectUses(s: seq<Token>, d: Defs) returns (used: set<string>)
    ensures used == UsedUpTo(s, d, |s|)
  {
    used := {};
    var idx := 0;
    while idx < |s|
      invariant idx <= |s|
      invariant used == UsedUpTo(s, d, idx)
    {
      var tok := s[idx];
      if tok.ttype == TableOrVariable {
        var key := Key(tok);
        if key in d.at && d.at[key] != idx {
          used := used + {key};
        }
      }
      idx := idx + 1;
    }
  }

  /** Appends the recorded declaration token of every unused key, in key order. */
  method ListUnused(s: seq<Token>, d: Defs, used: set<string>) returns (violators: seq<Token>)
    requires Points(s, d)
    ensures violators == UnusedUpTo(s, d, used, |d.keys|)
  {
    violators := [];
    var a := 0;
    while a < |d.keys|
      invariant a <= |d.keys|
      invariant violators == UnusedUpTo(s, d, used, a)
    {
      var key := d.keys[a];
      if key !in used {
        violators := violators + [s[d.at[key]]];
      }
      a := a + 1;
    }
  }

  /** `verify_violation` of the rule, from the stream to its violators; stops early when nothing is declared. */
  method FindUnusedVariables(ts: seq<Token>) returns (violators: seq<Token>)
    ensures violators == UnusedViolators(ts)
  {
    var s := CollectScanned(ts);
    var d := CollectDefinitions(s);
    if d.keys == [] {
      return [];
    }
    var used := CollectUses(s, d);
    DefsRecorded(s, |s|);
    violators := ListUnused(s, d, used);
  }

  // ---------------------------------------------------------------------
  // Properties.

  /** `p` is the last declaration of its name in the scanned list. */
  ghost predicate LastDeclaration(s: seq<Token>, p: nat) {
    NameAt(s, p) && forall q :: p < q < |s| && NameAt(s, q) ==> Key(s[q]) != Key(s[p])
  }

  /** Some other TABLE_OR_VARIABLE token carries the name declared at `p`. */
  ghost predicate NameUsedElsewhere(s: seq<Token>, p: nat)
    requires p < |s|
  {
    exists q :: 0 <= q < |s| && q != p && s[q].ttype == TableOrVariable && Key(s[q]) == Key(s[p])
  }

  /** The recorded position of a key is its last declaration. */
  lemma RecordedIsLast(s: seq<Token>, p: nat)
    requires p < |s|
    ensures var d := DefsUpTo(s, |s|);
            LastDeclaration(s, p) <==> Key(s[p]) in d.at && d.at[Key(s[p])] == p
  {
    DefsRecorded(s, |s|);
  }

  /** Every violator is an unused last declaration. */
  lemma ViolatorIsUnusedLast(ts: seq<Token>, t: Token)
    requires t in UnusedViolators(ts)
    ensures var s := ScannedTokens(ts);
            exists p :: 0 <= p < |s| && LastDeclaration(s, p) && !NameUsedElsewhere(s, p) && t == s[p]
  {
    var s := ScannedTokens(ts);
    var d := DefsUpTo(s, |s|);
    DefsRecorded(s, |s|);
    var used := UsedUpTo(s, d, |s|);
    var key, p := UnusedEntry(s, d, used, t);
    assert Key(s[p]) == key;
    RecordedIsLast(s, p);
    forall q | 0 <= q < |s| && q != p && s[q].ttype == TableOrVariable
      ensures Key(s[q]) != Key(s[p])
    {
      assert IsUse(s, d, q) ==> Key(s[q]) in used;
    }
    assert LastDeclaration(s, p) && !NameUsedElsewhere(s, p);
  }

  /** A listed token is the recorded declaration of an unused key. */
  lemma UnusedEntry(s: seq<Token>, d: Defs, used: set<string>, t: Token) returns (key: string, p: nat)
    requires Points(s, d) && t in UnusedUpTo(s, d, used, |d.keys|)
    ensures key in d.at && key !in used && p == d.at[key] && p < |s| && t == s[p]
  {
    UnusedListed(s, d, used, |d.keys|);
    var a :| 0 <= a < |d.keys| && d.keys[a] !in used && t == s[d.at[d.keys[a]]];
    key := d.keys[a];
    p := d.at[key];
  }

  /** Every unused last declaration is a violator. */
  lemma UnusedLastIsViolator(ts: seq<Token>, p: nat)
    requires var s := ScannedTokens(ts); p < |s| && LastDeclaration(s, p) && !NameUsedElsewhere(s, p)
    ensures ScannedTokens(ts)[p] in UnusedViolators(ts)
  {
    var s := ScannedTokens(ts);
    var d := DefsUpTo(s, |s|);
    DefsRecorded(s, |s|);
    var used := UsedUpTo(s, d, |s|);
    RecordedIsLast(s, p);
    var key := Key(s[p]);
    var a :| 0 <= a < |d.keys| && d.keys[a] == key;
    UnusedListed(s, d, used, |d.keys|);
    forall q | 0 <= q < |s| && q != p && s[q].ttype == TableOrVariable
      ensures Key(s[q]) != key
    {
    }
    assert key !in used;
  }

  /**
   * The violators are exactly the last declarations whose name no other
   * TABLE_OR_VARIABLE token carries.
   */
  lemma ViolatorsAreUnusedLastDeclarations(ts: seq<Token>, t: Token)
    ensures var s := ScannedTokens(ts);
            t in UnusedViolators(ts) <==>
            exists p :: 0 <= p < |s| && LastDeclaration(s, p) && !NameUsedElsewhere(s, p) && t == s[p]
  {
    var s := ScannedTokens(ts);
    if t in UnusedViolators(ts) {
      ViolatorIsUnusedLast(ts, t);
    }
    if p :| 0 <= p < |s| && LastDeclaration(s, p) && !NameUsedElsewhere(s, p) && t == s[p] {
      UnusedLastIsViolator(ts, p);
    }
  }

  /** A name declared twice is used by its earlier declaration, so it is never reported. */
  lemma RedeclarationIsUse(ts: seq<Token>, p: nat, q: nat)
    requires var s := ScannedTokens(ts); p < q && NameAt(s, p) && NameAt(s, q) && Key(s[p]) == Key(s[q])
    ensures forall t :: t in UnusedViolators(ts) ==> Key(t) != Key(ScannedTokens(ts)[p])
  {
    var s := ScannedTokens(ts);
    forall t | t in UnusedViolators(ts)
      ensures Key(t) != Key(s[p])
    {
      ViolatorIsUnusedLast(ts, t);
      var p0 :| 0 <= p0 < |s| && LastDeclaration(s, p0) && !NameUsedElsewhere(s, p0) && t == s[p0];
      assert s[p].ttype == TableOrVariable && (Key(s[p0]) == Key(s[p]) ==> p0 >= q);
    }
  }

  /** Without any declaration the rule reports nothing. */
  lemma NoDeclarationNoViolators(ts: seq<Token>)
    requires var s := ScannedTokens(ts); forall p :: !NameAt(s, p)
    ensures UnusedViolators(ts) == []
  {
    var s := ScannedTokens(ts);
    var d := DefsUpTo(s, |s|);
    DefsRecorded(s, |s|);
    assert d.at.Keys == {};
    DistinctCardinality(d.keys);
    assert (set x | x in d.keys) == d.at.Keys;
  }

  /** The names declared in the scanned list, lower-cased. */
  ghost function DeclaredNames(s: seq<Token>): set<string> {
    set p | 0 <= p < |s| && NameAt(s, p) :: Key(s[p])
  }

  lemma {:induction false} DistinctCardinality(xs: seq<string>)
    requires forall a, b :: 0 <= a < b < |xs| ==> xs[a] != xs[b]
    ensures |set x | x in xs| == |xs|
  {
    if xs != [] {
      DistinctCardinality(xs[1..]);
      assert (set x | x in xs) == {xs[0]} + (set x | x in xs[1..]);
      assert xs[0] !in (set x | x in xs[1..]);
    }
  }

  /** There are at most as many violators as distinct declared names. */
  lemma ViolatorsBounded(ts: seq<Token>)
    ensures |UnusedViolators(ts)| <= |DeclaredNames(ScannedTokens(ts))|
  {
    var s := ScannedTokens(ts);
    var d := DefsUpTo(s, |s|);
    DefsRecorded(s, |s|);
    DistinctCardinality(d.keys);
    assert (set x | x in d.keys) == DeclaredNames(s);
  }

  /** Tokens the rule does not scan (off the default channel and not VAR) never change its outcome. */
  lemma UnscannedIgnored(a: seq<Token>, h: Token, b: seq<Token>)
    requires !Scanned(h)
    ensures UnusedViolators(a + [h] + b) == UnusedViolators(a + b)
  {
    UnscannedSkipped(a, h, b);
  }

  /** A token the rule does not keep leaves the scanned list as it was. */
  lemma UnscannedSkipped(a: seq<Token>, h: Token, b: seq<Token>)
    requires !Scanned(h)
    ensures ScannedTokens(a + [h] + b) == ScannedTokens(a + b)
  {
    SelectSkips(a, h, b, Scanned);
  }
}
