/** The abstract syntax the parser builds and the later phases consume. */
module Syntax {

  /** An interned identifier; 0 is reserved for "no symbol". */
  type Symbol = nat

  const INVALID_SYMBOL: Symbol := 0

  /** The values of a C `uint64_t`. */
  type U64 = x: int | 0 <= x < 0x1_0000_0000_0000_0000

  datatype BinaryOp = Plus | Minus | Star | Slash | Equals

  datatype UnaryOp = UnaryPlus | UnaryMinus

  /** A tuple of n members is a chain of n - 1 `Tuple` nodes closed by a `TupleFinal`. */
  datatype Expr =
    | Literal(value: U64)
    | True
    | False
    | Identifier(id: Symbol)
    | Lambda(param: Symbol, body: Expr)
    | Apply(function_: Expr, argument: Expr)
    | Let(id: Symbol, value_: Expr, body: Expr)
    | LetRec(id: Symbol, value_: Expr, body: Expr)
    | If(test: Expr, then_: Expr, else_: Expr)
    | Binary(bop: BinaryOp, left: Expr, right: Expr)
    | Unary(uop: UnaryOp, arg: Expr)
    | Tuple(first: Expr, rest: Expr, length: nat)
    | TupleFinal(first: Expr)
    | Error
    | Invalid

  /** The symbols an expression uses without binding them. */
  function FreeVars(e: Expr): set<Symbol> {
    match e
    case Identifier(id) => {id}
    case Lambda(param, body) => FreeVars(body) - {param}
    case Apply(f, a) => FreeVars(f) + FreeVars(a)
    case Let(id, value, body) => FreeVars(value) + (FreeVars(body) - {id})
    case LetRec(id, value, body) => (FreeVars(value) - {id}) + (FreeVars(body) - {id})
    case If(t, a, b) => FreeVars(t) + FreeVars(a) + FreeVars(b)
    case Binary(_, l, r) => FreeVars(l) + FreeVars(r)
    case Unary(_, a) => FreeVars(a)
    case Tuple(first, rest, _) => FreeVars(first) + FreeVars(rest)
    case TupleFinal(first) => FreeVars(first)
    case _ => {}
  }

  /** All symbols in an expression, used or bound. */
  function Symbols(e: Expr): set<Symbol> {
    match e
    case Identifier(id) => {id}
    case Lambda(param, body) => {param} + Symbols(body)
    case Apply(f, a) => Symbols(f) + Symbols(a)
    case Let(id, value, body) => {id} + Symbols(value) + Symbols(body)
    case LetRec(id, value, body) => {id} + Symbols(value) + Symbols(body)
    case If(t, a, b) => Symbols(t) + Symbols(a) + Symbols(b)
    case Binary(_, l, r) => Symbols(l) + Symbols(r)
    case Unary(_, a) => Symbols(a)
    case Tuple(first, rest, _) => Symbols(first) + Symbols(rest)
    case TupleFinal(first) => Symbols(first)
    case _ => {}
  }

  /** A tuple chain of exactly `n` members. */
  predicate Chain(e: Expr, n: nat) {
    match e
    case Tuple(_, rest, _) => n > 0 && Chain(rest, n - 1)
    case TupleFinal(_) => n == 1
    case _ => false
  }

  /** The first `n` members of a tuple chain. */
  function MembersOf(e: Expr, n: nat): (ms: seq<Expr>)
    ensures |ms| <= n && forall m :: m in ms ==> m < e
  {
    if n == 0 then [] else
    match e
    case Tuple(first, rest, _) => [first] + MembersOf(rest, n - 1)
    case TupleFinal(first) => [first]
    case _ => []
  }

  /** The symbols the members from position `i` on use. */
  function MembersVars(ms: seq<Expr>, i: nat): set<Symbol>
    requires i <= |ms|
    decreases |ms| - i
  {
    if i == |ms| then {} else FreeVars(ms[i]) + MembersVars(ms, i + 1)
  }

  /** Programs that every phase can do something with: no division and no unary plus, which the
      compiler turns away, recursive definitions of functions only, and tuples as the parser makes
      them. */
  predicate Supported(e: Expr) {
    match e
    case Lambda(_, body) => Supported(body)
    case Apply(f, a) => Supported(f) && Supported(a)
    case Let(_, value, body) => Supported(value) && Supported(body)
    case LetRec(id, value, body) => id != INVALID_SYMBOL && value.Lambda? && Supported(value) && Supported(body)
    case If(t, a, b) => Supported(t) && Supported(a) && Supported(b)
    case Binary(op, l, r) => !op.Slash? && Supported(l) && Supported(r)
    case Unary(op, a) => op.UnaryMinus? && Supported(a)
    case Tuple(_, _, n) => Chain(e, n) && forall m :: m in MembersOf(e, n) ==> Supported(m)
    case TupleFinal(_) => false
    case Error => false
    case Invalid => false
    case _ => true
  }
}
