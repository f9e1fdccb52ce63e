/** Which expression the tokens of a text stand for, as a relation. */
module Derivations {
  import opened Syntax
  import opened Gr = Grammar

  // ----- Literals -----

  /** The number that digits stand for. */
  function Number(text: string): int {
    if text == [] then 0 else Number(text[..|text| - 1]) * 10 + (text[|text| - 1] as int - '0' as int)
  }

  function Wrapped(text: string): U64 { Number(text) % LIMIT }

  /** The word that is read for a literal: its number modulo 2^64, unless with some digit the word gets
      smaller, which is noticed as an overflow. */
  predicate ReadAs(text: string, n: U64) {
    n == Wrapped(text) && forall i :: 0 < i <= |text| ==> Wrapped(text[..i - 1]) <= Wrapped(text[..i])
  }

  // ----- The relation -----

  predicate IsOperator(k: nat, kind: Kind, op: BinaryOp) {
    match op
    case Equals => k == 3 && kind == EQUALS
    case Plus => k == 4 && kind == PLUS
    case Minus => k == 4 && kind == MINUS
    case Star => k == 5 && kind == STAR
    case Slash => k == 5 && kind == SLASH
  }

  /** The tokens stand for the expression where one of level `k` is asked for: definitions are on level
      0, conditionals on 1, functions on 2, operators on 3 to 5, prefix operators on 6, applications on
      7, and on 8 what needs no parentheses or has them. */
  ghost predicate Derives(intern: string -> Symbol, k: nat, ts: seq<Token>, e: Expr)
    requires k <= 8
    decreases |ts|, 10 - k
  {
    || (k < 8 && Derives(intern, k + 1, ts, e))
    || (k == 8 && Enclosed(ts) && Derives(intern, 0, ts[1..|ts| - 1], e))
    || Builds(intern, k, ts, e)
  }

  /** ... by the production of that very level. */
  ghost predicate Builds(intern: string -> Symbol, k: nat, ts: seq<Token>, e: Expr)
    requires k <= 8
    decreases |ts|, 1
  {
    match e
    case Let(id, value, body) =>
      && k == 0 && |ts| > 3 && ts[0].kind == LET && ts[1].kind == ID && intern(ts[1].text) == id
      && ts[2].kind == EQUALS && Defines(intern, ts[3..], value, body)
    case LetRec(id, value, body) =>
      && k == 0 && |ts| > 4 && ts[0].kind == LET && ts[1].kind == REC && ts[2].kind == ID
      && intern(ts[2].text) == id && ts[3].kind == EQUALS && Defines(intern, ts[4..], value, body)
    case If(t, a, b) =>
      && k == 1 && |ts| > 0 && ts[0].kind == Kind.IF
      && exists i, j :: 1 <= i < j < |ts| && ts[i].kind == THEN && ts[j].kind == ELSE
           && Derives(intern, 0, ts[1..i], t) && Derives(intern, 0, ts[i + 1..j], a)
           && Derives(intern, 0, ts[j + 1..], b)
    case Lambda(param, body) =>
      && k == 2 && |ts| > 3 && ts[0].kind == FN && ts[1].kind == ID && intern(ts[1].text) == param
      && ts[2].kind == ARROW && Derives(intern, 0, ts[3..], body)
    case Binary(op, l, r) =>
      exists i :: 0 <= i < |ts| && IsOperator(k, ts[i].kind, op)
        && k < 8 && Derives(intern, k, ts[..i], l) && Derives(intern, k + 1, ts[i + 1..], r)
    case Unary(op, a) =>
      && k == 6 && |ts| > 0 && ts[0].kind == (if op == UnaryPlus then PLUS else MINUS)
      && Derives(intern, 6, ts[1..], a)
    case Apply(f, a) =>
      k == 7 && exists i :: 0 < i < |ts| && Derives(intern, 7, ts[..i], f) && Derives(intern, 8, ts[i..], a)
    case Literal(n) => k == 8 && |ts| == 1 && ts[0].kind == INT_LITERAL && ReadAs(ts[0].text, n)
    case True => k == 8 && |ts| == 1 && ts[0].kind == TRUE
    case False => k == 8 && |ts| == 1 && ts[0].kind == FALSE
    case Identifier(id) => k == 8 && |ts| == 1 && ts[0].kind == ID && intern(ts[0].text) == id
    case Tuple(_, _, _) => k == 8 && Enclosed(ts) && Lists(intern, ts[1..|ts| - 1], e)
    case _ => false
  }

  predicate Enclosed(ts: seq<Token>) {
    |ts| >= 2 && ts[0].kind == LPAREN && ts[|ts| - 1].kind == RPAREN
  }

  /** value in body */
  ghost predicate Defines(intern: string -> Symbol, ts: seq<Token>, value: Expr, body: Expr)
    decreases |ts|, 20
  {
    exists i :: 0 <= i < |ts| && ts[i].kind == IN
      && Derives(intern, 0, ts[..i], value) && Derives(intern, 0, ts[i + 1..], body)
  }

  /** The members of a tuple, separated by commas; each node has the number of members from there on. */
  ghost predicate Lists(intern: string -> Symbol, ts: seq<Token>, e: Expr)
    decreases |ts|, 20
  {
    match e
    case Tuple(first, rest, length) =>
      && (rest.Tuple? || rest.TupleFinal?) && length == (if rest.Tuple? then rest.length + 1 else 2)
      && exists i :: 0 <= i < |ts| && ts[i].kind == COMMA
           && Derives(intern, 0, ts[..i], first) && Lists(intern, ts[i + 1..], rest)
    case TupleFinal(first) => Derives(intern, 0, ts, first)
    case _ => false
  }
}
