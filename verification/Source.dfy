/** Programs as text: what the lexer and the parser make of them together. */
module Source {
  import opened Wrappers
  import opened Syntax
  import opened Grammar
  import opened Derivations
  import opened ProductionsComplete
  import opened Printing
  import opened Lexer
  import Scanner
  import Parser

  /** The tokens of a text. */
  function TokensOf(b: string): seq<Token> {
    PlacesBounded(b);
    TokensAt(b, Places(b, 0))
  }

  /** The expression a text stands for, if there is no error. */
  function Front(g: Grammar, b: string): Option<Expr> {
    if !Closed(b, 0) || ErrorRuns(b, 0, false) > 0 then None
    else
      var p := g.Expression(State(TokensOf(b), 0, 0));
      if p.s.errors > 0 then None else Some(p.e)
  }

  /** A text does not end in a comment, and unexpected characters only come at its very end. */
  ghost predicate Lexical(b: string) {
    && (b == [] || !InComment(b, |b| - 1))
    && exists cut: nat :: cut <= |b| && Expected(b, 0, cut) && AllUnexpected(b, cut)
  }

  /** A text is read as an expression exactly if it can be cut into tokens that begin with some that
      stand for the expression, which does not go on after them. */
  lemma FrontExactly(g: Grammar, b: string, e: Expr)
    ensures Front(g, b) == Some(e) <==> Lexical(b) && exists n: nat :: DerivesFirst(g, TokensOf(b), n, e)
  {
    LexicalExactly(b);
    hide Lexical, Closed, ErrorRuns, TokensOf, DerivesFirst, Grammar.Expression;
    var ts := TokensOf(b);
    var p := g.Expression(At(ts, 0));
    if n: nat :| DerivesFirst(g, ts, n, e) { ExpressionExactly(g, ts, n, e); }
    if p.s.errors == 0 && p.e == e {
      ErrorsExactly(g, ts);
      var n: nat, e' :| DerivesFirst(g, ts, n, e');
      ExpressionExactly(g, ts, n, e');
    }
  }

  /** It is turned away exactly if it cannot be cut, or no beginning of its tokens stands for an
      expression that does not go on after it. */
  lemma FrontNothing(g: Grammar, b: string)
    ensures Front(g, b) == None <==> !Lexical(b) || forall n: nat, e :: !DerivesFirst(g, TokensOf(b), n, e)
  {
    LexicalExactly(b);
    hide Lexical, Closed, ErrorRuns, TokensOf, DerivesFirst, Grammar.Expression;
    ErrorsExactly(g, TokensOf(b));
  }

  lemma LexicalExactly(b: string)
    ensures Lexical(b) <==> Closed(b, 0) && ErrorRuns(b, 0, false) == 0
  {
    ClosedExactly(b, 0);
    ErrorsUnnoticed(b, 0);
  }

  lemma PlacesBounded(b: string)
    ensures forall p :: p in Places(b, 0) ==> p.start + p.length <= |b|
  {
    forall p | p in Places(b, 0) ensures p.start + p.length <= |b| { PlacesSpelled(b, 0, p); }
  }

  // ----- Printed tokens are well spelled -----

  ghost predicate NamesSpelled(name: Symbol -> string, e: Expr) {
    forall id :: id in Symbols(e) ==> WellSpelled(Token(ID, name(id)))
  }

  ghost predicate AllSpelled(ts: seq<Token>) {
    forall t :: t in ts ==> WellSpelled(t)
  }

  lemma {:induction false} DecimalDigits(n: nat)
    ensures forall i :: 0 <= i < |Decimal(n)| ==> IsDigit(Decimal(n)[i])
  {
    if n >= 10 { DecimalDigits(n / 10); }
  }

  lemma PunctuationSpelled(c: char)
    requires c in PUNCTUATION
    ensures WellSpelled(Token(PUNCTUATION[c], [c]))
  {
    assert [c][0..1] == [c];
  }

  lemma EqualsSpelled()
    ensures WellSpelled(Token(EQUALS, "="))
  {
    assert "="[0..1] == "=";
  }

  lemma ArrowSpelled()
    ensures WellSpelled(Token(ARROW, "=>"))
  {
    assert "=>"[0..2] == "=>";
  }

  lemma SymbolsSpelled()
    ensures WellSpelled(Token(LPAREN, "(")) && WellSpelled(Token(RPAREN, ")")) && WellSpelled(Token(COMMA, ","))
    ensures WellSpelled(Token(PLUS, "+")) && WellSpelled(Token(MINUS, "-")) && WellSpelled(Token(STAR, "*")) &&
            WellSpelled(Token(SLASH, "/"))
    ensures WellSpelled(Token(EQUALS, "=")) && WellSpelled(Token(ARROW, "=>"))
  {
    EqualsSpelled();
    ArrowSpelled();
    hide WellSpelled;
    PunctuationSpelled('(');
    PunctuationSpelled(')');
    PunctuationSpelled(',');
    PunctuationSpelled('+');
    PunctuationSpelled('-');
    PunctuationSpelled('*');
    PunctuationSpelled('/');
  }

  lemma KeywordSpelled(word: string)
    requires word in KEYWORDS
    ensures WellSpelled(Token(KEYWORDS[word], word))
  {
    Scanner.KeywordLetters(word);
    assert word[0..|word|] == word;
  }

  lemma LiteralSpelled(n: nat)
    ensures WellSpelled(Token(INT_LITERAL, Decimal(n)))
  {
    DecimalDigits(n);
  }

  lemma KeywordsSpelled()
    ensures WellSpelled(Token(TRUE, "true")) && WellSpelled(Token(FALSE, "false")) && WellSpelled(Token(FN, "fn"))
    ensures WellSpelled(Token(LET, "let")) && WellSpelled(Token(REC, "rec")) && WellSpelled(Token(IN, "in"))
    ensures WellSpelled(Token(Kind.IF, "if")) && WellSpelled(Token(THEN, "then")) && WellSpelled(Token(ELSE, "else"))
  {
    hide WellSpelled;
    KeywordSpelled("true");
    KeywordSpelled("false");
    KeywordSpelled("fn");
    KeywordSpelled("let");
    KeywordSpelled("rec");
    KeywordSpelled("in");
    KeywordSpelled("if");
    KeywordSpelled("then");
    KeywordSpelled("else");
  }

  lemma OperatorSpelled(op: BinaryOp)
    ensures WellSpelled(OperatorToken(op))
  {
    SymbolsSpelled();
  }

  lemma {:induction false} PrintSpelled(name: Symbol -> string, e: Expr, level: nat)
    requires Proper(e) && NamesSpelled(name, e)
    ensures AllSpelled(Print(name, e, level))
    decreases e, 1, if Level(e) < level then 1 else 0
  {
    SymbolsSpelled();
    KeywordsSpelled();
    hide WellSpelled;
    if Level(e) < level {
      PrintSpelled(name, e, 0);
    } else {
      match e
      case Literal(n) => LiteralSpelled(n);
      case Lambda(_, body) => PrintSpelled(name, body, 0);
      case Apply(f, a) =>
        PrintSpelled(name, f, 7);
        PrintSpelled(name, a, 8);
      case Let(_, value, body) =>
        PrintSpelled(name, value, 0);
        PrintSpelled(name, body, 0);
      case LetRec(_, value, body) =>
        PrintSpelled(name, value, 0);
        PrintSpelled(name, body, 0);
      case If(test, a, b) =>
        PrintSpelled(name, test, 0);
        PrintSpelled(name, a, 0);
        PrintSpelled(name, b, 0);
      case Binary(op, l, r) =>
        OperatorSpelled(op);
        PrintSpelled(name, l, Level(e));
        PrintSpelled(name, r, Level(e) + 1);
      case Unary(_, a) => PrintSpelled(name, a, 6);
      case Tuple(_, _, _) => MembersSpelled(name, e);
      case _ =>
    }
  }

  lemma {:induction false} MembersSpelled(name: Symbol -> string, e: Expr)
    requires ProperMembers(e) && NamesSpelled(name, e)
    ensures AllSpelled(PrintMembers(name, e))
    decreases e, 0, 0
  {
    SymbolsSpelled();
    hide WellSpelled;
    PrintSpelled(name, e.first, 0);
    if e.Tuple? { MembersSpelled(name, e.rest); }
  }

  // ----- From text to text -----

  lemma {:induction false} NoErrorRuns(b: string, pos: nat, ts: seq<Token>)
    requires pos <= |b| && b[pos..] == Render(ts) && AllSpelled(ts)
    ensures ErrorRuns(b, pos, false) == 0
    decreases |ts|
  {
    hide PieceAt, WellSpelled;
    if ts != [] {
      var end := pos + |ts[0].text|;
      Slices(b, pos, ts[0].text, Render(ts[1..]));
      PieceOf(b, pos, ts[0]);
      BlankPiece(b, end);
      NoErrorRuns(b, end + 1, ts[1..]);
    }
  }

  /** Printing an expression as text and reading the text gives the expression, without errors. */
  lemma SourceRoundTrip(g: Grammar, name: Symbol -> string, e: Expr)
    requires NamesAgree(g, name, e) && NamesSpelled(name, e) && Proper(e)
    ensures Front(g, Render(Print(name, e, 0))) == Some(e)
  {
    hide Print, Grammar.Expression, ErrorRuns;
    var ts := Print(name, e, 0);
    assert Render(ts)[0..] == Render(ts);
    PrintSpelled(name, e, 0);
    RenderRoundTrip(ts);
    NoErrorRuns(Render(ts), 0, ts);
    ProgramRoundTrip(g, name, e);
  }

  lemma SpelledKind(b: string, t: Place)
    requires t.length > 0 && t.start + t.length <= |b| && Spelled(b, t)
    ensures t.kind != EOF
  {
    assert forall c :: c in PUNCTUATION ==> PUNCTUATION[c] != EOF;
    assert forall w :: w in KEYWORDS ==> KEYWORDS[w] != EOF;
  }

  lemma PlacesKinds(b: string)
    ensures forall p :: p in Places(b, 0) ==> p.start + p.length <= |b| && p.kind != EOF
  {
    forall p | p in Places(b, 0) ensures p.start + p.length <= |b| && p.kind != EOF {
      PlacesSpelled(b, 0, p);
      SpelledKind(b, p);
    }
  }

  lemma OneToken(b: string, places: seq<Place>, i: nat)
    requires (forall p :: p in places ==> p.start + p.length <= |b|) && i < |places|
    ensures places[i].start + places[i].length <= |b|
    ensures TokensAt(b, places[i..]) ==
              [Token(places[i].kind, b[places[i].start..places[i].start + places[i].length])]
                + TokensAt(b, places[i + 1..])
  {
    hide *;
    Tail(places, i);
    FirstToken(b, places[i..]);
  }

  lemma Tail(places: seq<Place>, i: nat)
    requires i < |places|
    ensures places[i..][0] == places[i] && places[i..][1..] == places[i + 1..] && forall p :: p in places[i..] ==>
              p in places
  {
  }

  lemma FirstToken(b: string, places: seq<Place>)
    requires (forall p :: p in places ==> p.start + p.length <= |b|) && places != []
    ensures (forall p :: p in places[1..] ==> p.start + p.length <= |b|)
    ensures TokensAt(b, places) ==
              [Token(places[0].kind, b[places[0].start..places[0].start + places[0].length])] + TokensAt(b, places[1..])
  {
  }

  lemma NoTokens(b: string, places: seq<Place>)
    requires forall p :: p in places ==> p.start + p.length <= |b|
    ensures TokensAt(b, places[|places|..]) == [] && places[0..] == places
  {
  }

  /** The texts of the tokens, the end of the file among them. */
  method Extract(b: string, places: seq<Place>) returns (tokens: seq<Token>)
    requires forall p :: p in places ==> p.start + p.length <= |b|
    ensures tokens == TokensAt(b, places)
  {
    hide TokensAt;
    NoTokens(b, places);
    tokens := [];
    var i := 0;
    while i < |places|
      invariant 0 <= i <= |places| && tokens + TokensAt(b, places[i..]) == TokensAt(b, places)
    {
      OneToken(b, places, i);
      tokens := tokens + [Token(places[i].kind, b[places[i].start..places[i].start + places[i].length])];
      i := i + 1;
    }
  }

  /** The end of the file comes last, and nowhere else. */
  lemma EndComesLast(b: string)
    ensures (forall p :: p in Places(b, 0) ==> p.start + p.length <= |b|)
    ensures var end := Place(EOF, |b|, 0);
            (forall p :: p in Places(b, 0) + [end] ==> p.start + p.length <= |b|)
    ensures var ts := TokensAt(b, Places(b, 0) + [Place(EOF, |b|, 0)]);
            && |ts| > 0 && ts[..|ts| - 1] == TokensAt(b, Places(b, 0))
            && forall i :: 0 <= i < |ts| ==> (ts[i].kind == EOF <==> i == |ts| - 1)
  {
    PlacesKinds(b);
    var places, end := Places(b, 0), Place(EOF, |b|, 0);
    hide TokensAt, Places;
    TokensAppend(b, places, end);
    TokensKinds(b, places);
  }

  lemma TokensKinds(b: string, places: seq<Place>)
    requires forall p :: p in places ==> p.start + p.length <= |b| && p.kind != EOF
    ensures forall i :: 0 <= i < |TokensAt(b, places)| ==> TokensAt(b, places)[i].kind != EOF
  {
  }

  lemma {:induction false} TokensAppend(b: string, places: seq<Place>, p: Place)
    requires forall q :: q in places + [p] ==> q.start + q.length <= |b|
    ensures forall q :: q in places ==> q.start + q.length <= |b|
    ensures TokensAt(b, places + [p]) == TokensAt(b, places) + [Token(p.kind, b[p.start..p.start + p.length])]
  {
    assert forall q :: q in places ==> q in places + [p];
    if places != [] {
      assert (places + [p])[1..] == places[1..] + [p] && (places + [p])[0] == places[0];
      assert forall q :: q in places[1..] + [p] ==> q in places + [p];
      TokensAppend(b, places[1..], p);
    }
  }

  /** Why a text is not an expression. */
  datatype Reading = LexerLost | LexerErrors | ParserErrors | Read(e: Expr)

  /** Cuts a text into tokens and parses them. */
  method ReadSource(g: Grammar, b: string) returns (r: Reading)
    ensures match r
            case Read(e) => Front(g, b) == Some(e)
            case LexerLost => !Closed(b, 0)
            case LexerErrors => Closed(b, 0) && ErrorRuns(b, 0, false) > 0
            case ParserErrors => Closed(b, 0) && ErrorRuns(b, 0, false) == 0 && Front(g, b) == None
  {
    var places, lines, errors, halts := Scanner.LexBuffer(b);
    if !halts { return LexerLost; }
    if errors > 0 { return LexerErrors; }
    EndComesLast(b);
    var tokens := Extract(b, places);
    var e, span, syntaxErrors := Parser.ParseExpression(g, tokens);
    if syntaxErrors > 0 { return ParserErrors; }
    return Read(e);
  }
}
