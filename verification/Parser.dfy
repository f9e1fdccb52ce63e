/** The recursive-descent parser. */
module Parser {
  import opened Syntax
  import opened Grammar

  /** The tokens a node of the tree stands for, and those of its parts. */
  datatype Span = Span(start: nat, end: nat, parts: seq<Span>)

  /** Every part lies inside the whole, and after the part before it. */
  predicate Nested(s: Span) {
    && s.start <= s.end
    && (forall i :: 0 <= i < |s.parts| ==> s.start <= s.parts[i].start && s.parts[i].end <= s.end && Nested(s.parts[i]))
    && (forall i :: 0 < i < |s.parts| ==> s.parts[i - 1].end <= s.parts[i].start)
  }

  function Leaf(pos: nat): Span { Span(pos, pos, []) }

  function Over(start: nat, parts: seq<Span>): Span
    requires |parts| > 0
  {
    Span(start, parts[|parts| - 1].end, parts)
  }

  class ParseContext {
    const grammar: Grammar
    const tokens: seq<Token>
    var pos: nat
    var lostCount: nat
    var errors: nat

    /** The last token, and no other, is the end of the file. */
    ghost predicate Valid()
      reads this
    {
      && pos < |tokens|
      && forall i :: 0 <= i < |tokens| ==> (tokens[i].kind == EOF <==> i == |tokens| - 1)
    }

    ghost function Left(): State
      reads this
      requires Valid()
    {
      State(tokens[pos..|tokens| - 1], lostCount, errors)
    }

    constructor (grammar: Grammar, tokens: seq<Token>)
      requires |tokens| > 0 && forall i :: 0 <= i < |tokens| ==> (tokens[i].kind == EOF <==> i == |tokens| - 1)
      ensures Valid() && Left() == State(tokens[..|tokens| - 1], 0, 0) && pos == 0 && this.grammar == grammar &&
              this.tokens == tokens
    {
      this.grammar := grammar;
      this.tokens := tokens;
      pos := 0;
      lostCount := 0;
      errors := 0;
    }

    function PeekToken(): (k: Kind)
      reads this
      requires Valid()
      ensures k == Left().Peek()
    {
      tokens[pos].kind
    }

    function Check(kind: Kind): (r: bool)
      reads this
      requires Valid()
      ensures r == (kind != EOF && Left().Peek() == kind)
    {
      if PeekToken() == EOF then false else PeekToken() == kind
    }

    method Advance()
      requires Valid()
      modifies `pos
      ensures Valid() && pos == old(pos) + (if old(PeekToken()) == EOF then 0 else 1)
      ensures old(PeekToken()) != EOF ==> Left() == old(Left()).Skip()
      ensures old(PeekToken()) == EOF ==> Left() == old(Left())
    {
      if PeekToken() != EOF { pos := pos + 1; }
    }

    method SyntaxErrorToken()
      requires Valid()
      modifies `lostCount, `errors
      ensures Valid() && Left() == old(Left()).Fail()
    {
      if lostCount == 0 { errors := errors + 1; }
      lostCount := 4;
    }

    method Match(kind: Kind) returns (matched: bool)
      requires Valid() && kind != EOF
      modifies `pos, `lostCount
      ensures Valid() && matched == (old(Left()).Peek() == kind)
      ensures matched ==>
                Left() == old(Left()).Accept() && pos == old(pos) + 1 && tokens[old(pos)] == old(Left()).rest[0]
      ensures !matched ==> Left() == old(Left()) && pos == old(pos)
    {
      if Check(kind) {
        if lostCount > 0 { lostCount := lostCount - 1; }
        Advance();
        return true;
      }
      return false;
    }

    method MatchV(one: Kind, two: Kind) returns (matched: bool)
      requires Valid() && one != EOF && two != EOF
      modifies `pos
      ensures Valid() && matched == (old(Left()).Peek() == one || old(Left()).Peek() == two)
      ensures matched ==> Left() == old(Left()).Skip() && pos == old(pos) + 1 && tokens[old(pos)] == old(Left()).rest[0]
      ensures !matched ==> Left() == old(Left()) && pos == old(pos)
    {
      if Check(one) || Check(two) {
        Advance();
        return true;
      }
      return false;
    }

    method Expect(kind: Kind)
      requires Valid() && kind != EOF
      modifies this
      ensures Valid() && Left() == old(Left()).Expect(kind) && pos >= old(pos)
    {
      var matched := Match(kind);
      if !matched { SyntaxErrorToken(); }
    }

    method ParseSymbol() returns (symbol: Symbol)
      requires Valid()
      modifies this
      ensures Valid() && pos >= old(pos) && (symbol, Left()) == grammar.Name(old(Left()))
    {
      var matched := Match(ID);
      if matched {
        symbol := grammar.intern(tokens[pos - 1].text);
      } else {
        SyntaxErrorToken();
        symbol := INVALID_SYMBOL;
      }
    }

    /** A production has read an expression, which the grammar gives, from tokens between where it
        began and where it is now. */
    ghost predicate Produced(p: Parsed, e: Expr, span: Span, from: nat)
      reads this
    {
      Valid() && p == Parsed(e, Left()) && Nested(span) && from <= span.start && span.end <= pos
    }

    method ParseLiteral(text: string) returns (value: U64, overflow: bool)
      ensures (value, overflow) == LiteralFrom(text, 0)
    {
      value := 0;
      var i := 0;
      while i < |text|
        invariant 0 <= i <= |text| && LiteralFrom(text, 0) == LiteralFrom(text[i..], value)
      {
        var next: U64 := (value * 10 + Digit(text[i])) % LIMIT;
        if next < value { return value, true; }
        value := next;
        i := i + 1;
      }
      return value, false;
    }

    method ParsePrimary() returns (e: Expr, span: Span)
      requires Valid()
      modifies this
      ensures Produced(grammar.Primary(old(Left())), e, span, old(pos))
      ensures IsPrimary(old(Left()).Peek()) ==> pos > old(pos)
      decreases |tokens| - pos, 1
    {
      hide Grammar.TupleNext, Grammar.Expression;
      var matched := Match(FALSE);
      if matched { return False, Leaf(pos - 1); }
      matched := Match(TRUE);
      if matched { return True, Leaf(pos - 1); }
      matched := Match(INT_LITERAL);
      if matched {
        var value, overflow := ParseLiteral(tokens[pos - 1].text);
        if overflow { SyntaxErrorToken(); }
        return Literal(value), Leaf(pos - 1);
      }
      if Check(ID) {
        var symbol := ParseSymbol();
        return Identifier(symbol), Leaf(pos - 1);
      }
      if Check(LPAREN) {
        e, span := ParseParentheses();
        return;
      }
      SyntaxErrorToken();
      return Expr.Error, Leaf(pos);
    }

    method ParseParentheses() returns (e: Expr, span: Span)
      requires Valid() && PeekToken() == LPAREN
      modifies this
      ensures Produced(grammar.Primary(old(Left())), e, span, old(pos)) && pos > old(pos)
      decreases |tokens| - pos, 0
    {
      hide Grammar.TupleNext, Grammar.Expression;
      var matched := Match(LPAREN);
      e, span := ParseExpr();
      matched := Match(COMMA);
      if matched { e, span := ParseTupleNext(e, span); }
      Expect(RPAREN);
    }

    method ParseTupleNext(first: Expr, firstSpan: Span) returns (e: Expr, span: Span)
      requires Valid() && Nested(firstSpan) && firstSpan.end <= pos
      modifies this
      ensures Produced(grammar.TupleNext(first, old(Left())), e, span, firstSpan.start)
      decreases |tokens| - pos, 16
    {
      hide Grammar.TupleRest;
      var rest, restSpan := ParseTuple();
      var length := if rest.Tuple? then rest.length + 1 else 2;
      return Expr.Tuple(first, rest, length), Over(firstSpan.start, [firstSpan, restSpan]);
    }

    method ParseTuple() returns (e: Expr, span: Span)
      requires Valid()
      modifies this
      ensures Produced(grammar.TupleRest(old(Left())), e, span, old(pos))
      decreases |tokens| - pos, 15
    {
      hide Grammar.Expression, Grammar.TupleNext;
      e, span := ParseExpr();
      var matched := Match(COMMA);
      if matched {
        e, span := ParseTupleNext(e, span);
      } else {
        e, span := Expr.TupleFinal(e), Over(span.start, [span]);
      }
    }

    method ParseApplication() returns (e: Expr, span: Span)
      requires Valid()
      modifies this
      ensures Produced(grammar.Application(old(Left())), e, span, old(pos))
      decreases |tokens| - pos, 3
    {
      hide Grammar.Primary;
      e, span := ParsePrimary();
      while IsPrimary(PeekToken())
        invariant Valid() && pos >= old(pos) && Nested(span) && old(pos) <= span.start && span.end <= pos
        invariant grammar.Application(old(Left())) == grammar.Arguments(e, Left())
        decreases |tokens| - pos
      {
        var arg, argSpan := ParsePrimary();
        e, span := Apply(e, arg), Over(span.start, [span, argSpan]);
      }
    }

    method ParseUnary() returns (e: Expr, span: Span)
      requires Valid()
      modifies this
      ensures Produced(grammar.UnaryLevel(old(Left())), e, span, old(pos))
      decreases |tokens| - pos, 4
    {
      hide Grammar.Application;
      var matched := MatchV(PLUS, MINUS);
      if matched {
        var operator, start := tokens[pos - 1].kind, pos - 1;
        e, span := ParseUnary();
        e, span := Unary(if operator == PLUS then UnaryPlus else UnaryMinus, e), Over(start, [span]);
      } else {
        e, span := ParseApplication();
      }
    }

    method ParseFactor() returns (e: Expr, span: Span)
      requires Valid()
      modifies this
      ensures Produced(grammar.Factor(old(Left())), e, span, old(pos))
      decreases |tokens| - pos, 6
    {
      hide Grammar.UnaryLevel;
      e, span := ParseUnary();
      while true
        invariant Valid() && pos >= old(pos) && Nested(span) && old(pos) <= span.start && span.end <= pos
        invariant grammar.Factor(old(Left())) == grammar.Factors(e, Left())
        decreases |tokens| - pos
      {
        var matched := MatchV(STAR, SLASH);
        if !matched { break; }
        var operator := tokens[pos - 1].kind;
        var right, rightSpan := ParseUnary();
        e, span := Binary(if operator == STAR then Star else Slash, e, right), Over(span.start, [span, rightSpan]);
      }
    }

    method ParseTerm() returns (e: Expr, span: Span)
      requires Valid()
      modifies this
      ensures Produced(grammar.Term(old(Left())), e, span, old(pos))
      decreases |tokens| - pos, 8
    {
      hide Grammar.Factor;
      e, span := ParseFactor();
      while true
        invariant Valid() && pos >= old(pos) && Nested(span) && old(pos) <= span.start && span.end <= pos
        invariant grammar.Term(old(Left())) == grammar.Terms(e, Left())
        decreases |tokens| - pos
      {
        var matched := MatchV(PLUS, MINUS);
        if !matched { break; }
        var operator := tokens[pos - 1].kind;
        var right, rightSpan := ParseFactor();
        e, span := Binary(if operator == PLUS then Plus else Minus, e, right), Over(span.start, [span, rightSpan]);
      }
    }

    method ParseComparison() returns (e: Expr, span: Span)
      requires Valid()
      modifies this
      ensures Produced(grammar.Comparison(old(Left())), e, span, old(pos))
      decreases |tokens| - pos, 10
    {
      hide Grammar.Term;
      e, span := ParseTerm();
      while true
        invariant Valid() && pos >= old(pos) && Nested(span) && old(pos) <= span.start && span.end <= pos
        invariant grammar.Comparison(old(Left())) == grammar.Comparisons(e, Left())
        decreases |tokens| - pos
      {
        var matched := Match(EQUALS);
        if !matched { break; }
        var right, rightSpan := ParseTerm();
        e, span := Binary(Equals, e, right), Over(span.start, [span, rightSpan]);
      }
    }

    method ParseFn() returns (e: Expr, span: Span)
      requires Valid()
      modifies this
      ensures Produced(grammar.Function(old(Left())), e, span, old(pos))
      decreases |tokens| - pos, 11
    {
      hide Grammar.Comparison, Grammar.Expression;
      var matched := Match(FN);
      if matched {
        var start := pos - 1;
        var variable := ParseSymbol();
        Expect(ARROW);
        e, span := ParseExpr();
        e, span := Lambda(variable, e), Over(start, [span]);
      } else {
        e, span := ParseComparison();
      }
    }

    /** An expression and the keyword that has to follow it. */
    method ParseBefore(kind: Kind) returns (e: Expr, span: Span)
      requires Valid() && kind != EOF
      modifies this
      ensures Produced(grammar.Before(kind, old(Left())), e, span, old(pos))
      decreases |tokens| - pos, 15
    {
      hide Grammar.Expression;
      e, span := ParseExpr();
      Expect(kind);
    }

    method ParseIf() returns (e: Expr, span: Span)
      requires Valid()
      modifies this
      ensures Produced(grammar.Conditional(old(Left())), e, span, old(pos))
      decreases |tokens| - pos, 12
    {
      hide Grammar.Before, Grammar.Function, Grammar.Expression;
      var matched := Match(Kind.IF);
      if matched {
        var start := pos - 1;
        var test, testSpan := ParseBefore(THEN);
        var thenArm, thenSpan := ParseBefore(ELSE);
        var elseArm, elseSpan := ParseExpr();
        e, span := If(test, thenArm, elseArm), Over(start, [testSpan, thenSpan, elseSpan]);
      } else {
        e, span := ParseFn();
      }
    }

    method ParseHeader() returns (isLetRec: bool, variable: Symbol)
      requires Valid()
      modifies this
      ensures Valid() && pos >= old(pos) && (isLetRec, variable, Left()) == grammar.Header(old(Left()))
    {
      isLetRec := Match(REC);
      variable := ParseSymbol();
      Expect(EQUALS);
    }

    method ParseLet() returns (e: Expr, span: Span)
      requires Valid()
      modifies this
      ensures Produced(grammar.Definition(old(Left())), e, span, old(pos))
      decreases |tokens| - pos, 13
    {
      hide Grammar.Header, Grammar.Before, Grammar.Conditional, Grammar.Expression;
      var matched := Match(LET);
      if matched {
        var start := pos - 1;
        var isLetRec, variable := ParseHeader();
        var value, valueSpan := ParseBefore(IN);
        var body, bodySpan := ParseExpr();
        e := if isLetRec then LetRec(variable, value, body) else Let(variable, value, body);
        span := Over(start, [valueSpan, bodySpan]);
      } else {
        e, span := ParseIf();
      }
    }

    method ParseExpr() returns (e: Expr, span: Span)
      requires Valid()
      modifies this
      ensures Produced(grammar.Expression(old(Left())), e, span, old(pos))
      decreases |tokens| - pos, 14
    {
      hide Grammar.Definition;
      e, span := ParseLet();
    }
  }

  /** Parses a list of tokens that ends with the end of the file. */
  method ParseExpression(grammar: Grammar, tokens: seq<Token>) returns (e: Expr, span: Span, errors: nat)
    requires |tokens| > 0 && forall i :: 0 <= i < |tokens| ==> (tokens[i].kind == EOF <==> i == |tokens| - 1)
    ensures var p := grammar.Expression(State(tokens[..|tokens| - 1], 0, 0));
            e == p.e && errors == p.s.errors
    ensures Nested(span) && span.end < |tokens|
  {
    var context := new ParseContext(grammar, tokens);
    e, span := context.ParseExpr();
    errors := context.errors;
  }
}
