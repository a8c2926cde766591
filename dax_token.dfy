/**
 * DAXToken: a snapshot of a lexer token. It copies the token's offsets,
 * position, text and type; it defines no equality of its own, so two
 * snapshots are equal only when they are the same object.
 */
module DaxTokens {
  import opened Tokens

  class DaxToken {
    const start: int
    const stop: int
    const line: int
    const column: int
    const text: string
    const ttype: TokenType

    /** The snapshot holds exactly the fields of `t` it copies. */
    predicate Snapshots(t: Token) {
      start == t.start && stop == t.stop && line == t.line && column == t.column &&
      text == t.text && ttype == t.ttype
    }

    constructor (t: Token)
      ensures Snapshots(t)
    {
      start, stop := t.start, t.stop;
      line, column := t.line, t.column;
      text, ttype := t.text, t.ttype;
    }
  }

  /** Snapshotting the same token twice gives two distinct objects that hold the same fields. */
  method SnapshotTwice(t: Token) returns (same: bool, sameFields: bool)
    ensures !same && sameFields
  {
    var a := new DaxToken(t);
    var b := new DaxToken(t);
    same := a == b;
    sameFields := a.start == b.start && a.stop == b.stop && a.line == b.line &&
                  a.column == b.column && a.text == b.text && a.ttype == b.ttype;
  }
}
