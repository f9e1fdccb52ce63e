/** The grammar as the parser reads it, on the tokens that are left. */
module Grammar {
  import opened Syntax

  datatype Kind =
    | EOF | ID | INT_LITERAL | TRUE | FALSE | LPAREN | PLUS | MINUS | RPAREN | FN | IF | IN | STAR | SLASH
    | EQUALS | ARROW | LET | REC | THEN | ELSE | COMMA

  datatype Token = Token(kind: Kind, text: string)

  predicate IsPrimary(k: Kind) { k in {ID, INT_LITERAL, TRUE, FALSE, LPAREN} }

  /** What is left to parse, how lost the parser is, and the errors so far. */
  datatype State = State(rest: seq<Token>, lost: nat, errors: nat) {
    function Peek(): Kind {
      if rest == [] then EOF else rest[0].kind
    }

    /** After one token. */
    function Skip(): State
      requires rest != []
    {
      this.(rest := rest[1..])
    }

    /** After a token that was expected: the parser is a little less lost. */
    function Accept(): State
      requires rest != []
    {
      State(rest[1..], if lost > 0 then lost - 1 else 0, errors)
    }

    /** After a syntax error: only one is reported until the parser has found its way again. */
    function Fail(): State {
      State(rest, 4, if lost == 0 then errors + 1 else errors)
    }

    function Expect(k: Kind): State
      requires k != EOF
    {
      if Peek() == k then Accept() else Fail()
    }
  }

  datatype Parsed = Parsed(e: Expr, s: State)

  // ----- Literals -----

  const LIMIT := 0x1_0000_0000_0000_0000

  /** The value of a literal, in 64-bit words, and whether an overflow is noticed. */
  function LiteralFrom(text: string, value: U64): (U64, bool) {
    if text == [] then (value, false)
    else
      var next: U64 := (value * 10 + Digit(text[0])) % LIMIT;
      if next < value then (value, true) else LiteralFrom(text[1..], next)
  }

  /** A digit as the parser reads it: a character minus '0', as a word. */
  function Digit(c: char): U64 {
    (c as int - '0' as int) % LIMIT
  }

  // ----- Productions -----

  /** `intern` gives every name its symbol. */
  datatype Grammar = Grammar(intern: string -> Symbol) {

    function Name(s: State): (r: (Symbol, State))
      ensures |r.1.rest| <= |s.rest|
    {
      if s.Peek() == ID then (intern(s.rest[0].text), s.Accept()) else (INVALID_SYMBOL, s.Fail())
    }

    function Primary(s: State): (p: Parsed)
      ensures |p.s.rest| <= |s.rest| && (IsPrimary(s.Peek()) ==> |p.s.rest| < |s.rest|)
      decreases |s.rest|, 1
    {
      match s.Peek()
      case FALSE => Parsed(False, s.Accept())
      case TRUE => Parsed(True, s.Accept())
      case INT_LITERAL =>
        var (value, overflow) := LiteralFrom(s.rest[0].text, 0);
        Parsed(Literal(value), if overflow then s.Accept().Fail() else s.Accept())
      case ID => Parsed(Identifier(intern(s.rest[0].text)), s.Accept())
      case LPAREN =>
        var p := Expression(s.Accept());
        var q := if p.s.Peek() == COMMA then TupleNext(p.e, p.s.Accept()) else p;
        Parsed(q.e, q.s.Expect(RPAREN))
      case _ => Parsed(Expr.Error, s.Fail())
    }

    function TupleNext(first: Expr, s: State): (p: Parsed)
      ensures |p.s.rest| <= |s.rest|
      decreases |s.rest|, 16
    {
      var rest := TupleRest(s);
      Parsed(Expr.Tuple(first, rest.e, if rest.e.Tuple? then rest.e.length + 1 else 2), rest.s)
    }

    function TupleRest(s: State): (p: Parsed)
      ensures |p.s.rest| <= |s.rest|
      decreases |s.rest|, 15
    {
      var p := Expression(s);
      if p.s.Peek() == COMMA then TupleNext(p.e, p.s.Accept()) else Parsed(Expr.TupleFinal(p.e), p.s)
    }

    function Application(s: State): (p: Parsed)
      ensures |p.s.rest| <= |s.rest|
      decreases |s.rest|, 3
    {
      var p := Primary(s);
      Arguments(p.e, p.s)
    }

    function Arguments(f: Expr, s: State): (p: Parsed)
      ensures |p.s.rest| <= |s.rest|
      decreases |s.rest|, 2
    {
      if IsPrimary(s.Peek()) then
        var p := Primary(s);
        Arguments(Apply(f, p.e), p.s)
      else Parsed(f, s)
    }

    function UnaryLevel(s: State): (p: Parsed)
      ensures |p.s.rest| <= |s.rest|
      decreases |s.rest|, 4
    {
      if s.Peek() == PLUS || s.Peek() == MINUS then
        var p := UnaryLevel(s.Skip());
        Parsed(Unary(if s.Peek() == PLUS then UnaryPlus else UnaryMinus, p.e), p.s)
      else Application(s)
    }

    function Factor(s: State): (p: Parsed)
      ensures |p.s.rest| <= |s.rest|
      decreases |s.rest|, 6
    {
      var p := UnaryLevel(s);
      Factors(p.e, p.s)
    }

    function Factors(left: Expr, s: State): (p: Parsed)
      ensures |p.s.rest| <= |s.rest|
      decreases |s.rest|, 5
    {
      if s.Peek() == STAR || s.Peek() == SLASH then
        var p := UnaryLevel(s.Skip());
        Factors(Binary(if s.Peek() == STAR then Star else Slash, left, p.e), p.s)
      else Parsed(left, s)
    }

    function Term(s: State): (p: Parsed)
      ensures |p.s.rest| <= |s.rest|
      decreases |s.rest|, 8
    {
      var p := Factor(s);
      Terms(p.e, p.s)
    }

    function Terms(left: Expr, s: State): (p: Parsed)
      ensures |p.s.rest| <= |s.rest|
      decreases |s.rest|, 7
    {
      if s.Peek() == PLUS || s.Peek() == MINUS then
        var p := Factor(s.Skip());
        Terms(Binary(if s.Peek() == PLUS then Plus else Minus, left, p.e), p.s)
      else Parsed(left, s)
    }

    function Comparison(s: State): (p: Parsed)
      ensures |p.s.rest| <= |s.rest|
      decreases |s.rest|, 10
    {
      var p := Term(s);
      Comparisons(p.e, p.s)
    }

    function Comparisons(left: Expr, s: State): (p: Parsed)
      ensures |p.s.rest| <= |s.rest|
      decreases |s.rest|, 9
    {
      if s.Peek() == EQUALS then
        var p := Term(s.Accept());
        Comparisons(Binary(Equals, left, p.e), p.s)
      else Parsed(left, s)
    }

    function Function(s: State): (p: Parsed)
      ensures |p.s.rest| <= |s.rest|
      decreases |s.rest|, 11
    {
      if s.Peek() == FN then
        var (id, s1) := Name(s.Accept());
        var p := Expression(s1.Expect(ARROW));
        Parsed(Lambda(id, p.e), p.s)
      else Comparison(s)
    }

    /** An expression and the keyword after it. */
    function Before(k: Kind, s: State): (p: Parsed)
      requires k != EOF
      ensures |p.s.rest| <= |s.rest|
      decreases |s.rest|, 15
    {
      var p := Expression(s);
      Parsed(p.e, p.s.Expect(k))
    }

    function Conditional(s: State): (p: Parsed)
      ensures |p.s.rest| <= |s.rest|
      decreases |s.rest|, 12
    {
      if s.Peek() == Kind.IF then
        var test := Before(THEN, s.Accept());
        var a := Before(ELSE, test.s);
        var b := Expression(a.s);
        Parsed(If(test.e, a.e, b.e), b.s)
      else Function(s)
    }

    /** The name that a definition is for, and whether it may be recursive. */
    function Header(s: State): (h: (bool, Symbol, State))
      ensures |h.2.rest| <= |s.rest|
    {
      var recursive := s.Peek() == REC;
      var (id, s1) := Name(if recursive then s.Accept() else s);
      (recursive, id, s1.Expect(EQUALS))
    }

    function Definition(s: State): (p: Parsed)
      ensures |p.s.rest| <= |s.rest|
      decreases |s.rest|, 13
    {
      if s.Peek() == LET then
        var (recursive, id, s1) := Header(s.Accept());
        var value := Before(IN, s1);
        var body := Expression(value.s);
        Parsed(if recursive then LetRec(id, value.e, body.e) else Let(id, value.e, body.e), body.s)
      else Conditional(s)
    }

    function Expression(s: State): (p: Parsed)
      ensures |p.s.rest| <= |s.rest|
      decreases |s.rest|, 14
    {
      Definition(s)
    }
  }
}
