/** Printing expressions with as few parentheses as possible, and reading them back. */
module Printing {
  import opened Syntax
  import opened Grammar
  import opened Derivations
  import opened ProductionsSound
  import opened ProductionsComplete

  /** How tightly the outermost construct of an expression binds. */
  function Level(e: Expr): nat
    ensures Level(e) <= 8
  {
    match e
    case Let(_, _, _) => 0
    case LetRec(_, _, _) => 0
    case If(_, _, _) => 1
    case Lambda(_, _) => 2
    case Binary(op, _, _) => if op == Equals then 3 else if op == Plus || op == Minus then 4 else 5
    case Unary(_, _) => 6
    case Apply(_, _) => 7
    case _ => 8
  }

  function OperatorToken(op: BinaryOp): Token {
    match op
    case Plus => Token(PLUS, "+")
    case Minus => Token(MINUS, "-")
    case Star => Token(STAR, "*")
    case Slash => Token(SLASH, "/")
    case Equals => Token(EQUALS, "=")
  }

  function Decimal(n: nat): (text: string)
    ensures |text| > 0
  {
    if n < 10 then [(n + '0' as int) as char] else Decimal(n / 10) + [(n % 10 + '0' as int) as char]
  }

  /** The tokens of an expression where one of at least level `level` is asked for. */
  function Print(name: Symbol -> string, e: Expr, level: nat): seq<Token>
    decreases e, 1, if Level(e) < level then 1 else 0
  {
    if Level(e) < level then [Token(LPAREN, "(")] + Print(name, e, 0) + [Token(RPAREN, ")")]
    else
      match e
      case Literal(n) => [Token(INT_LITERAL, Decimal(n))]
      case True => [Token(TRUE, "true")]
      case False => [Token(FALSE, "false")]
      case Identifier(id) => [Token(ID, name(id))]
      case Lambda(id, body) => [Token(FN, "fn"), Token(ID, name(id)), Token(ARROW, "=>")] + Print(name, body, 0)
      case Apply(f, a) => Print(name, f, 7) + Print(name, a, 8)
      case Let(id, value, body) =>
        [Token(LET, "let"), Token(ID, name(id)), Token(EQUALS, "=")] + Print(name, value, 0)
        + [Token(IN, "in")] + Print(name, body, 0)
      case LetRec(id, value, body) =>
        [Token(LET, "let"), Token(REC, "rec"), Token(ID, name(id)), Token(EQUALS, "=")] + Print(name, value, 0)
        + [Token(IN, "in")] + Print(name, body, 0)
      case If(test, a, b) =>
        [Token(Kind.IF, "if")] + Print(name, test, 0) + [Token(THEN, "then")] + Print(name, a, 0)
        + [Token(ELSE, "else")] + Print(name, b, 0)
      case Binary(op, l, r) => Print(name, l, Level(e)) + [OperatorToken(op)] + Print(name, r, Level(e) + 1)
      case Unary(op, a) => [if op == UnaryPlus then Token(PLUS, "+") else Token(MINUS, "-")] + Print(name, a, 6)
      case Tuple(_, _, _) => [Token(LPAREN, "(")] + PrintMembers(name, e) + [Token(RPAREN, ")")]
      case _ => []
  }

  function PrintMembers(name: Symbol -> string, e: Expr): seq<Token>
    decreases e, 0, 0
  {
    match e
    case Tuple(first, rest, _) => Print(name, first, 0) + [Token(COMMA, ",")] + PrintMembers(name, rest)
    case TupleFinal(first) => Print(name, first, 0)
    case _ => []
  }

  /** Expressions as the parser makes them when there is no error. */
  predicate Proper(e: Expr)
    decreases e, 1
  {
    match e
    case Identifier(id) => id != INVALID_SYMBOL
    case Lambda(id, body) => id != INVALID_SYMBOL && Proper(body)
    case Apply(f, a) => Proper(f) && Proper(a)
    case Let(id, value, body) => id != INVALID_SYMBOL && Proper(value) && Proper(body)
    case LetRec(id, value, body) => id != INVALID_SYMBOL && Proper(value) && Proper(body)
    case If(test, a, b) => Proper(test) && Proper(a) && Proper(b)
    case Binary(_, l, r) => Proper(l) && Proper(r)
    case Unary(_, a) => Proper(a)
    case Tuple(_, _, _) => ProperMembers(e)
    case TupleFinal(_) => false
    case Error => false
    case Invalid => false
    case _ => true
  }

  /** A chain of tuple members, each node with the number of members from there on. */
  predicate ProperMembers(e: Expr)
    decreases e, 0
  {
    match e
    case Tuple(first, rest, length) =>
      && Proper(first) && (rest.Tuple? || rest.TupleFinal?) && ProperMembers(rest)
      && length == if rest.Tuple? then rest.length + 1 else 2
    case TupleFinal(first) => Proper(first)
    case _ => false
  }

  // ----- Literals -----

  lemma {:induction false} LiteralAppend(text: string, c: char, value: U64, n: U64)
    requires LiteralFrom(text, value) == (n, false) && '0' <= c <= '9' && n * 10 + (c as int - '0' as int) < LIMIT
    ensures LiteralFrom(text + [c], value) == (n * 10 + (c as int - '0' as int), false)
  {
    if text == [] {
      assert text + [c] == [c] && [c][1..] == [];
    } else {
      assert (text + [c])[1..] == text[1..] + [c] && (text + [c])[0] == text[0];
      LiteralAppend(text[1..], c, (value * 10 + Digit(text[0])) % LIMIT, n);
    }
  }

  /** Reading the decimal digits of a word gives the word. */
  lemma {:induction false} LiteralRoundTrip(n: U64)
    ensures LiteralFrom(Decimal(n), 0) == (n, false)
    decreases n
  {
    if n < 10 {
      assert Decimal(n)[1..] == [];
    } else {
      LiteralRoundTrip(n / 10);
      LiteralAppend(Decimal(n / 10), (n % 10 + '0' as int) as char, 0, n / 10);
    }
  }

  predicate IsDecimal(text: string) {
    forall i :: 0 <= i < |text| ==> '0' <= text[i] <= '9'
  }

  /** With every digit the number gets larger, or stays. */
  lemma {:induction false} NumberGrows(text: string, i: nat)
    requires IsDecimal(text) && i <= |text|
    ensures 0 <= Number(text[..i]) <= Number(text)
    decreases |text| - i, i
  {
    if i < |text| {
      assert text[..|text| - 1][..i] == text[..i];
      NumberGrows(text[..|text| - 1], i);
    } else {
      assert text[..i] == text;
      NumberIsNatural(text);
    }
  }

  lemma {:induction false} NumberIsNatural(text: string)
    requires IsDecimal(text)
    ensures Number(text) >= 0
  {
    if text != [] { NumberIsNatural(text[..|text| - 1]); }
  }

  lemma SmallPrefixes(text: string)
    requires IsDecimal(text) && 0 <= Number(text) < LIMIT
    ensures ReadAs(text, Number(text))
  {
    forall i | 0 < i <= |text| ensures Wrapped(text[..i - 1]) <= Wrapped(text[..i]) {
      NumberGrows(text, i);
      assert text[..i][..i - 1] == text[..i - 1];
      NumberGrows(text[..i], i - 1);
      hide Number;
    }
  }

  /** A literal gets its value exactly if that is a word; then no overflow is reported. */
  lemma LiteralExact(text: string)
    requires IsDecimal(text)
    ensures LiteralFrom(text, 0).0 == Number(text) <==> Number(text) < LIMIT
    ensures LiteralFrom(text, 0).1 ==> Number(text) >= LIMIT
  {
    hide LiteralFrom, ReadAs, Number;
    LiteralExactly(text);
    NumberIsNatural(text);
    var r := LiteralFrom(text, 0);
    assert !r.1 ==> ReadAs(text, r.0);
    if Number(text) < LIMIT { SmallPrefixes(text); }
  }

  /** An overflow in the last digit is reported exactly if the wrapped value is smaller than the
      one before; otherwise the wrong value is taken. */
  lemma {:induction false} OverflowReported(text: string, c: char, value: U64, n: U64)
    requires LiteralFrom(text, value) == (n, false) && '0' <= c <= '9' && n * 10 + (c as int - '0' as int) >= LIMIT
    ensures var wrapped := (n * 10 + (c as int - '0' as int)) % LIMIT;
            LiteralFrom(text + [c], value) == if wrapped < n then (n, true) else (wrapped, false)
  {
    if text == [] {
      assert text + [c] == [c] && [c][1..] == [];
    } else {
      assert (text + [c])[1..] == text[1..] + [c] && (text + [c])[0] == text[0];
      OverflowReported(text[1..], c, (value * 10 + Digit(text[0])) % LIMIT, n);
    }
  }

  /** Such a literal is 30000000000000000000. */
  lemma OverflowMissed()
    ensures LiteralFrom(Decimal(3000000000000000000) + "0", 0) == (11553255926290448384, false)
  {
    hide LiteralFrom, Decimal;
    var n := 3000000000000000000;
    LiteralRoundTrip(n);
    OverflowReported(Decimal(n), '0', 0, n);
  }

  // ----- Round trip -----

  /** The names of an expression print to tokens that the parser gives the same symbols. */
  ghost predicate NamesAgree(g: Grammar, name: Symbol -> string, e: Expr) {
    forall id :: id in Symbols(e) ==> g.intern(name(id)) == id
  }

  /** What is printed stands for the expression, on every level. */
  lemma {:induction false} PrintDerives(g: Grammar, name: Symbol -> string, e: Expr, level: nat)
    requires NamesAgree(g, name, e) && Proper(e) && level <= 8
    ensures Derives(g.intern, level, Print(name, e, level), e)
    decreases e, 1, if Level(e) < level then 1 else 0
  {
    hide Derives, Builds, Lists;
    if Level(e) < level {
      var l, x, r := Token(LPAREN, "("), Print(name, e, 0), Token(RPAREN, ")");
      PrintDerives(g, name, e, 0);
      EnclosedDerives(g.intern, l, x, r, e);
      Lower(g.intern, 8, level, [l] + x + [r], e);
    } else {
      match e {
        case Let(_, _, _) => LetDerived(g, name, e);
        case LetRec(_, _, _) => LetDerived(g, name, e);
        case If(_, _, _) => IfDerived(g, name, e);
        case Lambda(_, _) => LambdaDerived(g, name, e);
        case Binary(op, l, r) =>
          PrintDerives(g, name, l, Level(e));
          PrintDerives(g, name, r, Level(e) + 1);
          BinaryDerives(g.intern, Level(e), Print(name, l, Level(e)), OperatorToken(op), Print(name, r, Level(e) + 1),
                        op,
                        l, r);
        case Unary(op, a) =>
          PrintDerives(g, name, a, 6);
          UnaryDerives(g.intern, if op == UnaryPlus then Token(PLUS, "+") else Token(MINUS, "-"), Print(name, a, 6),
                       op, a);
        case Apply(f, a) =>
          PrintDerives(g, name, f, 7);
          PrintDerives(g, name, a, 8);
          DerivesSomething(g.intern, 7, Print(name, f, 7), f);
          DerivesSomething(g.intern, 8, Print(name, a, 8), a);
          ApplyDerives(g.intern, Print(name, f, 7), Print(name, a, 8), f, a);
        case Tuple(_, _, _) =>
          MembersDerive(g, name, e);
          EnclosedDerives(g.intern, Token(LPAREN, "("), PrintMembers(name, e), Token(RPAREN, ")"), e);
        case _ => AtomDerived(g, name, e);
      }
      SamePrint(name, e, level);
      Lower(g.intern, Level(e), level, Print(name, e, level), e);
    }
  }

  /** What needs no parentheses is printed the same on all levels. */
  lemma SamePrint(name: Symbol -> string, e: Expr, level: nat)
    requires level <= Level(e)
    ensures Print(name, e, level) == Print(name, e, Level(e))
  {
  }

  lemma AtomDerived(g: Grammar, name: Symbol -> string, e: Expr)
    requires NamesAgree(g, name, e) && Proper(e) && (e.Literal? || e.True? || e.False? || e.Identifier?)
    ensures Derives(g.intern, 8, Print(name, e, 8), e)
  {
    if e.Literal? {
      LiteralRoundTrip(e.value);
      LiteralExactly(Decimal(e.value));
      hide ReadAs;
    }
    assert Builds(g.intern, 8, Print(name, e, 8), e);
  }

  lemma {:induction false} LambdaDerived(g: Grammar, name: Symbol -> string, e: Expr)
    requires NamesAgree(g, name, e) && Proper(e) && e.Lambda?
    ensures Derives(g.intern, 2, Print(name, e, 2), e)
    decreases e, 0, 0
  {
    hide Derives;
    PrintDerives(g, name, e.body, 0);
    LambdaDerives(g.intern, Token(FN, "fn"), Token(ID, name(e.param)), Token(ARROW, "=>"), Print(name, e.body, 0),
                  e.body);
  }

  lemma {:induction false} IfDerived(g: Grammar, name: Symbol -> string, e: Expr)
    requires NamesAgree(g, name, e) && Proper(e) && e.If?
    ensures Derives(g.intern, 1, Print(name, e, 1), e)
    decreases e, 0, 0
  {
    IfNames(g, name, e);
    hide *;
    var t, a, b := Print(name, e.test, 0), Print(name, e.then_, 0), Print(name, e.else_, 0);
    var f, n, l := Token(Kind.IF, "if"), Token(THEN, "then"), Token(ELSE, "else");
    PrintDerives(g, name, e.test, 0);
    PrintDerives(g, name, e.then_, 0);
    PrintDerives(g, name, e.else_, 0);
    BeforeDerives(g.intern, t, n, e.test);
    BeforeDerives(g.intern, a, l, e.then_);
    IfDerives(g.intern, f, t + [n], a + [l], b, e.test, e.then_, e.else_);
    IfPrinted(name, e);
    Bracketed(f, t, n, a, l, b);
  }

  lemma IfNames(g: Grammar, name: Symbol -> string, e: Expr)
    requires NamesAgree(g, name, e) && Proper(e) && e.If?
    ensures NamesAgree(g, name, e.test) && NamesAgree(g, name, e.then_) && NamesAgree(g, name, e.else_)
    ensures Proper(e.test) && Proper(e.then_) && Proper(e.else_) && e == If(e.test, e.then_, e.else_)
  {
  }

  lemma IfPrinted(name: Symbol -> string, e: Expr)
    requires e.If?
    ensures Print(name, e, 1)
            == [Token(Kind.IF, "if")] + Print(name, e.test, 0) + [Token(THEN, "then")] + Print(name, e.then_, 0)
               + [Token(ELSE, "else")] + Print(name, e.else_, 0)
  {
  }

  lemma Bracketed(f: Token, t: seq<Token>, n: Token, a: seq<Token>, l: Token, b: seq<Token>)
    ensures [f] + (t + [n]) + (a + [l]) + b == [f] + t + [n] + a + [l] + b
  {
  }

  lemma BeforeDerives(intern: string -> Symbol, x: seq<Token>, k: Token, e: Expr)
    requires Derives(intern, 0, x, e)
    ensures DerivesBefore(intern, k.kind, x + [k], e)
  {
    assert (x + [k])[..|x|] == x;
  }

  lemma {:induction false} LetDerived(g: Grammar, name: Symbol -> string, e: Expr)
    requires NamesAgree(g, name, e) && Proper(e) && (e.Let? || e.LetRec?)
    ensures Derives(g.intern, 0, Print(name, e, 0), e)
    decreases e, 0, 0
  {
    LetNames(g, name, e);
    hide *;
    var head, x, n, y := LetHeader(name, e), Print(name, e.value_, 0), Token(IN, "in"), Print(name, e.body, 0);
    PrintDerives(g, name, e.value_, 0);
    PrintDerives(g, name, e.body, 0);
    BeforeDerives(g.intern, x, n, e.value_);
    HeaderTokens(name, e);
    LetDerives(g.intern, head, x + [n], y, e.value_, e.body);
    LetPrinted(name, e);
    LetJoined(head, x, n, y);
  }

  lemma LetJoined(head: seq<Token>, x: seq<Token>, n: Token, y: seq<Token>)
    ensures head + (x + [n]) + y == head + x + [n] + y
  {
  }

  lemma LetNames(g: Grammar, name: Symbol -> string, e: Expr)
    requires NamesAgree(g, name, e) && Proper(e) && (e.Let? || e.LetRec?)
    ensures NamesAgree(g, name, e.value_) && NamesAgree(g, name, e.body) && Proper(e.value_) && Proper(e.body)
    ensures g.intern(name(e.id)) == e.id
    ensures e == if e.LetRec? then LetRec(e.id, e.value_, e.body) else Let(e.id, e.value_, e.body)
  {
  }

  function LetHeader(name: Symbol -> string, e: Expr): seq<Token>
    requires e.Let? || e.LetRec?
  {
    var l, i, q := Token(LET, "let"), Token(ID, name(e.id)), Token(EQUALS, "=");
    if e.LetRec? then [l, Token(REC, "rec"), i, q] else [l, i, q]
  }

  lemma HeaderTokens(name: Symbol -> string, e: Expr)
    requires e.Let? || e.LetRec?
    ensures var h := LetHeader(name, e);
            && |h| == (if e.LetRec? then 4 else 3) && h[0].kind == LET && h[|h| - 2] == Token(ID, name(e.id))
            && h[|h| - 1].kind == EQUALS && (|h| == 4 ==> h[1].kind == REC)
  {
  }

  lemma LetPrinted(name: Symbol -> string, e: Expr)
    requires e.Let? || e.LetRec?
    ensures Print(name, e, 0) == LetHeader(name, e) + Print(name, e.value_, 0) + [Token(IN, "in")]
            + Print(name, e.body, 0)
  {
  }

  lemma {:induction false} MembersDerive(g: Grammar, name: Symbol -> string, e: Expr)
    requires NamesAgree(g, name, e) && ProperMembers(e)
    ensures Lists(g.intern, PrintMembers(name, e), e)
    decreases e, 0, 0
  {
    hide Derives;
    PrintDerives(g, name, e.first, 0);
    if e.Tuple? {
      MembersDerive(g, name, e.rest);
      PairDerives(g.intern, Print(name, e.first, 0), Token(COMMA, ","), PrintMembers(name, e.rest), e.first, e.rest);
    }
  }

  /** Reading what has been printed gives the expression, on every level: the production for the
      level has read it as its first operand, and goes on with what follows. */
  lemma RoundTripAt(g: Grammar, name: Symbol -> string, e: Expr, level: nat, rest: seq<Token>, errors: nat)
    requires NamesAgree(g, name, e) && Proper(e) && level <= 8 && Stops(level + 1, At(rest, errors).Peek())
    ensures ParseAt(g, level, At(Print(name, e, level) + rest, errors)) == GoOnAt(g, level, e, At(rest, errors))
  {
    hide *;
    PrintDerives(g, name, e, level);
    DerivedIsParsed(g, level, Print(name, e, level), e, rest, errors);
  }

  /** Printing and parsing: whatever token follows that cannot go on with an expression, the parser
      gets the expression back, no errors, and exactly the rest. */
  lemma RoundTrip(g: Grammar, name: Symbol -> string, e: Expr, rest: seq<Token>, errors: nat)
    requires NamesAgree(g, name, e) && Proper(e) && Stops(0, At(rest, errors).Peek())
    ensures g.Expression(At(Print(name, e, 0) + rest, errors)) == Parsed(e, At(rest, errors))
  {
    hide *;
    PrintDerives(g, name, e, 0);
    ExpressionIsParsed(g, Print(name, e, 0), e, rest, errors);
  }

  /** A whole program. */
  lemma ProgramRoundTrip(g: Grammar, name: Symbol -> string, e: Expr)
    requires NamesAgree(g, name, e) && Proper(e)
    ensures g.Expression(State(Print(name, e, 0), 0, 0)) == Parsed(e, State([], 0, 0))
  {
    RoundTrip(g, name, e, [], 0);
    assert Print(name, e, 0) + [] == Print(name, e, 0);
  }
}
