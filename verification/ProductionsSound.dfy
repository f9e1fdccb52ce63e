/** What the productions read without an error, the tokens they took stand for. */
module ProductionsSound {
  import opened Syntax
  import opened Gr = Grammar
  import opened Derivations

  // ----- Steps of the parser -----

  /** The tokens between two states. */
  function Taken(s: State, t: State): seq<Token>
    requires |t.rest| <= |s.rest|
  {
    s.rest[..|s.rest| - |t.rest|]
  }

  /** There has been no error. */
  predicate Fine(s: State, t: State) { s.lost == 0 && t.errors == s.errors }

  /** Tokens are taken from the front, errors are added, and the parser gets lost only with an error. */
  predicate Steps(s: State, t: State) {
    && |t.rest| <= |s.rest| && s.rest == Taken(s, t) + t.rest && t.errors >= s.errors
    && (Fine(s, t) ==> t.lost == 0)
  }

  lemma Stay(s: State)
    ensures Steps(s, s) && Taken(s, s) == []
  {
  }

  lemma StepsTrans(s: State, t: State, u: State)
    requires Steps(s, t) && Steps(t, u)
    ensures Steps(s, u) && Taken(s, u) == Taken(s, t) + Taken(t, u)
    ensures Fine(s, u) ==> Fine(s, t) && Fine(t, u)
  {
    assert s.rest == Taken(s, t) + (Taken(t, u) + u.rest);
    assert s.rest == Taken(s, t) + Taken(t, u) + u.rest;
  }

  lemma OneToken(s: State)
    requires s.rest != []
    ensures Steps(s, s.Accept()) && Taken(s, s.Accept()) == [s.rest[0]]
    ensures Steps(s, s.Skip()) && Taken(s, s.Skip()) == [s.rest[0]]
  {
  }

  /** After `n` tokens that were expected. */
  function Found(s: State, n: nat): State
    requires n <= |s.rest|
    decreases n
  {
    if n == 0 then s else Found(s.Accept(), n - 1)
  }

  lemma {:induction false} FoundLost(s: State, n: nat)
    requires n <= |s.rest|
    ensures Found(s, n).errors == s.errors && Found(s, n).lost == if n < s.lost then s.lost - n else 0
    decreases n
  {
    if n > 0 { FoundLost(s.Accept(), n - 1); }
  }

  /** A first error is counted; another one only after four tokens that were expected. */
  lemma ErrorsAreSpaced(s: State, n: nat)
    requires n <= |s.rest|
    ensures s.lost == 0 ==> s.Fail().errors == s.errors + 1
    ensures Found(s.Fail(), n).Fail().errors == s.Fail().errors + if n < 4 then 0 else 1
  {
    FoundLost(s.Fail(), n);
  }

  lemma Failing(s: State)
    ensures Steps(s, s.Fail()) && Taken(s, s.Fail()) == [] && !Fine(s, s.Fail())
  {
  }

  /** A token that is expected. */
  lemma Expecting(s: State, k: Kind)
    requires k != EOF
    ensures Steps(s, s.Expect(k))
    ensures Fine(s, s.Expect(k)) ==> s.rest != [] && s.rest[0].kind == k && Taken(s, s.Expect(k)) == [s.rest[0]]
  {
    if s.Peek() == k { OneToken(s); } else { Failing(s); }
  }

  // ----- Soundness -----

  /** From `start` on the tokens taken stand for the expression, unless there has been an error. */
  ghost predicate Sound(g: Gr.Grammar, k: nat, start: State, p: Parsed)
    requires k <= 8
  {
    Steps(start, p.s) && (Fine(start, p.s) ==> Derives(g.intern, k, Taken(start, p.s), p.e))
  }

  ghost predicate SoundList(g: Gr.Grammar, start: State, p: Parsed) {
    && Steps(start, p.s) && (p.e.Tuple? || p.e.TupleFinal?)
    && (Fine(start, p.s) ==> Lists(g.intern, Taken(start, p.s), p.e))
  }

  /** What stands for an expression of one level stands for it on all lower ones. */
  lemma LowerSound(g: Gr.Grammar, k: nat, j: nat, start: State, p: Parsed)
    requires j <= k <= 8 && Sound(g, k, start, p)
    ensures Sound(g, j, start, p)
    decreases k - j
  {
    if j < k { LowerSound(g, k, j + 1, start, p); }
  }

  lemma {:induction false} PrimarySound(g: Gr.Grammar, s: State)
    ensures Sound(g, 8, s, g.Primary(s))
    decreases |s.rest|, 1
  {
    if s.Peek() == LPAREN {
      EnclosedSound(g, s);
    } else {
      AtomSound(g, s);
    }
  }

  lemma AtomSound(g: Gr.Grammar, s: State)
    requires s.Peek() != LPAREN
    ensures Sound(g, 8, s, g.Primary(s))
  {
    if s.rest == [] || s.Peek() !in {TRUE, FALSE, INT_LITERAL, ID} {
      assert g.Primary(s) == Parsed(Expr.Error, s.Fail());
      hide Derives;
      Failing(s);
    } else if s.Peek() == INT_LITERAL {
      LiteralSound(g, s);
    } else {
      var e := g.Primary(s).e;
      assert g.Primary(s) == Parsed(e, s.Accept());
      assert Builds(g.intern, 8, [s.rest[0]], e);
      OneToken(s);
    }
  }

  lemma LiteralSound(g: Gr.Grammar, s: State)
    requires s.rest != [] && s.Peek() == INT_LITERAL
    ensures Sound(g, 8, s, g.Primary(s))
  {
    var text, t := s.rest[0].text, s.Accept();
    var r := LiteralFrom(text, 0);
    assert g.Primary(s) == Parsed(Literal(r.0), if r.1 then t.Fail() else t);
    LiteralExactly(text);
    OneToken(s);
    assert !r.1 ==> Builds(g.intern, 8, [s.rest[0]], Literal(r.0));
    hide ReadAs, LiteralFrom, Steps, Taken, Builds;
    Failing(t);
    StepsTrans(s, t, t.Fail());
  }

  lemma {:induction false} LiteralFromPrefix(text: string, i: nat)
    requires i <= |text| && forall j :: 0 < j <= i ==> Wrapped(text[..j - 1]) <= Wrapped(text[..j])
    ensures var r := LiteralFrom(text[i..], Wrapped(text[..i]));
            if ReadAs(text, Wrapped(text)) then r == (Wrapped(text), false) else r.1
    decreases |text| - i
  {
    if i == |text| {
      assert text[..i] == text;
    } else {
      assert text[i..][0] == text[i] && text[i..][1..] == text[i + 1..];
      assert text[..i + 1][..i] == text[..i] && text[..i + 1][i] == text[i];
      NextDigit(Number(text[..i]), text[i]);
      if Wrapped(text[..i]) <= Wrapped(text[..i + 1]) { LiteralFromPrefix(text, i + 1); }
    }
  }

  lemma NextDigit(n: int, c: char)
    ensures (n % LIMIT * 10 + Digit(c)) % LIMIT == (n * 10 + (c as int - '0' as int)) % LIMIT
  {
  }

  /** The digit loop reads just the words of the relation, and notices the others. */
  lemma LiteralExactly(text: string)
    ensures forall n: U64 :: LiteralFrom(text, 0) == (n, false) <==> ReadAs(text, n)
  {
    assert text[..0] == [] && text[0..] == text && Wrapped(text[..0]) == 0;
    LiteralFromPrefix(text, 0);
  }

  // ----- Building derivations -----

  lemma Lower(intern: string -> Symbol, k: nat, j: nat, ts: seq<Token>, e: Expr)
    requires j <= k <= 8 && Derives(intern, k, ts, e)
    ensures Derives(intern, j, ts, e)
    decreases k - j
  {
    if j < k { Lower(intern, k, j + 1, ts, e); }
  }

  lemma EnclosedDerives(intern: string -> Symbol, l: Token, x: seq<Token>, r: Token, e: Expr)
    requires l.kind == LPAREN && r.kind == RPAREN
    requires Derives(intern, 0, x, e) || (e.Tuple? && Lists(intern, x, e))
    ensures Derives(intern, 8, [l] + x + [r], e)
  {
    var ts := [l] + x + [r];
    assert ts[1..|ts| - 1] == x && Enclosed(ts);
  }

  lemma PairDerives(intern: string -> Symbol, x: seq<Token>, c: Token, y: seq<Token>, first: Expr, rest: Expr)
    requires c.kind == COMMA && Derives(intern, 0, x, first) && (rest.Tuple? || rest.TupleFinal?) &&
             Lists(intern, y, rest)
    ensures Lists(intern, x + [c] + y, Expr.Tuple(first, rest, if rest.Tuple? then rest.length + 1 else 2))
  {
    var ts, i := x + [c] + y, |x|;
    assert ts[i] == c && ts[..i] == x && ts[i + 1..] == y;
  }

  lemma ApplyDerives(intern: string -> Symbol, x: seq<Token>, y: seq<Token>, f: Expr, a: Expr)
    requires x != [] && y != [] && Derives(intern, 7, x, f) && Derives(intern, 8, y, a)
    ensures Derives(intern, 7, x + y, Apply(f, a))
  {
    var ts, i := x + y, |x|;
    assert ts[..i] == x && ts[i..] == y;
    assert Builds(intern, 7, ts, Apply(f, a));
  }

  lemma UnaryDerives(intern: string -> Symbol, t: Token, x: seq<Token>, op: UnaryOp, a: Expr)
    requires t.kind == (if op == UnaryPlus then PLUS else MINUS) && Derives(intern, 6, x, a)
    ensures Derives(intern, 6, [t] + x, Unary(op, a))
  {
    assert ([t] + x)[1..] == x;
    assert Builds(intern, 6, [t] + x, Unary(op, a));
  }

  lemma BinaryDerives(intern: string -> Symbol, k: nat, x: seq<Token>, t: Token, y: seq<Token>, op: BinaryOp, l: Expr,
                      r: Expr)
    requires k < 8 && IsOperator(k, t.kind, op) && Derives(intern, k, x, l) && Derives(intern, k + 1, y, r)
    ensures Derives(intern, k, x + [t] + y, Binary(op, l, r))
  {
    var ts, i := x + [t] + y, |x|;
    assert ts[i] == t && ts[..i] == x && ts[i + 1..] == y;
    assert Builds(intern, k, ts, Binary(op, l, r));
  }

  lemma LambdaDerives(intern: string -> Symbol, f: Token, i: Token, a: Token, x: seq<Token>, body: Expr)
    requires f.kind == FN && i.kind == ID && a.kind == ARROW && Derives(intern, 0, x, body)
    ensures Derives(intern, 2, [f, i, a] + x, Lambda(intern(i.text), body))
  {
    DerivesSomething(intern, 0, x, body);
    var ts := [f, i, a] + x;
    assert ts[3..] == x;
    assert Builds(intern, 2, ts, Lambda(intern(i.text), body));
  }

  /** An expression and the keyword after it. */
  ghost predicate DerivesBefore(intern: string -> Symbol, k: Kind, ts: seq<Token>, e: Expr) {
    |ts| > 0 && ts[|ts| - 1].kind == k && Derives(intern, 0, ts[..|ts| - 1], e)
  }

  lemma IfDerives(intern: string -> Symbol, f: Token, x: seq<Token>, y: seq<Token>, z: seq<Token>,
                  t: Expr, a: Expr, b: Expr)
    requires f.kind == Kind.IF && DerivesBefore(intern, THEN, x, t) && DerivesBefore(intern, ELSE, y, a)
    requires Derives(intern, 0, z, b)
    ensures Derives(intern, 1, [f] + x + y + z, If(t, a, b))
  {
    var ts, i, j := [f] + x + y + z, |x|, |x| + |y|;
    assert ts[0] == f && ts[i] == x[|x| - 1] && ts[j] == y[|y| - 1];
    assert ts[1..i] == x[..|x| - 1] && ts[i + 1..j] == y[..|y| - 1] && ts[j + 1..] == z;
    assert Builds(intern, 1, ts, If(t, a, b));
  }

  lemma LetDerives(intern: string -> Symbol, head: seq<Token>, x: seq<Token>, y: seq<Token>, value: Expr, body: Expr)
    requires DerivesBefore(intern, IN, x, value) && Derives(intern, 0, y, body)
    requires 3 <= |head| <= 4 && head[0].kind == LET && head[|head| - 2].kind == ID && head[|head| - 1].kind == EQUALS
    requires |head| == 4 ==> head[1].kind == REC
    ensures var id := intern(head[|head| - 2].text);
            Derives(intern, 0, head + x + y, if |head| == 4 then LetRec(id, value, body) else Let(id, value, body))
  {
    DefinesFrom(intern, x, y, value, body);
    hide Derives, DerivesBefore, Defines;
    LetBuilds(intern, head, x + y, value, body);
    assert head + (x + y) == head + x + y;
  }

  lemma DefinesFrom(intern: string -> Symbol, x: seq<Token>, y: seq<Token>, value: Expr, body: Expr)
    requires DerivesBefore(intern, IN, x, value) && Derives(intern, 0, y, body)
    ensures Defines(intern, x + y, value, body)
  {
    var rest, i := x + y, |x| - 1;
    assert rest[i] == x[i] && rest[..i] == x[..i] && rest[i + 1..] == y;
  }

  lemma LetBuilds(intern: string -> Symbol, head: seq<Token>, rest: seq<Token>, value: Expr, body: Expr)
    requires Defines(intern, rest, value, body) && rest != []
    requires 3 <= |head| <= 4 && head[0].kind == LET && head[|head| - 2].kind == ID && head[|head| - 1].kind == EQUALS
    requires |head| == 4 ==> head[1].kind == REC
    ensures var id := intern(head[|head| - 2].text);
            Derives(intern, 0, head + rest, if |head| == 4 then LetRec(id, value, body) else Let(id, value, body))
  {
    hide Defines;
    var id, ts := intern(head[|head| - 2].text), head + rest;
    assert ts[|head|..] == rest && forall i :: 0 <= i < |head| ==> ts[i] == head[i];
    assert Builds(intern, 0, ts, if |head| == 4 then LetRec(id, value, body) else Let(id, value, body));
  }

  /** No expression is made of nothing. */
  lemma {:induction false} DerivesSomething(intern: string -> Symbol, k: nat, ts: seq<Token>, e: Expr)
    requires k <= 8 && Derives(intern, k, ts, e)
    ensures ts != []
    decreases 8 - k
  {
    if k < 8 && Derives(intern, k + 1, ts, e) { DerivesSomething(intern, k + 1, ts, e); }
  }

  // ----- The productions -----

  lemma {:induction false} EnclosedSound(g: Gr.Grammar, s: State)
    requires s.Peek() == LPAREN && s.rest != []
    ensures Sound(g, 8, s, g.Primary(s))
    decreases |s.rest|, 0
  {
    OneToken(s);
    var s1 := s.Accept();
    var p := g.Expression(s1);
    var q := if p.s.Peek() == COMMA then g.TupleNext(p.e, p.s.Accept()) else p;
    PrimaryEnclosed(g, s);
    hide Grammar.Primary, Grammar.Expression, Grammar.TupleNext, Steps, Derives, Lists, Taken;
    ExpressionSound(g, s1);
    if p.s.Peek() == COMMA { TupleNextSound(g, s1, p); }
    var r := q.s.Expect(RPAREN);
    Expecting(q.s, RPAREN);
    StepsTrans(s, s1, q.s);
    StepsTrans(s, q.s, r);
    if Fine(s, r) { EnclosedDerives(g.intern, s.rest[0], Taken(s1, q.s), q.s.rest[0], q.e); }
  }

  lemma PrimaryEnclosed(g: Gr.Grammar, s: State)
    requires s.Peek() == LPAREN && s.rest != []
    ensures var p := g.Expression(s.Accept());
            var q := if p.s.Peek() == COMMA then g.TupleNext(p.e, p.s.Accept()) else p;
            g.Primary(s) == Parsed(q.e, q.s.Expect(RPAREN))
  {
    hide Grammar.Expression, Grammar.TupleNext;
  }

  lemma {:induction false} TupleNextSound(g: Gr.Grammar, start: State, first: Parsed)
    requires Sound(g, 0, start, first) && first.s.rest != [] && first.s.Peek() == COMMA
    ensures var q := g.TupleNext(first.e, first.s.Accept()); SoundList(g, start, q) && q.e.Tuple?
    decreases |first.s.rest|, 0
  {
    var t := first.s.Accept();
    var rest := g.TupleRest(t);
    var q := g.TupleNext(first.e, t);
    assert q == Parsed(Expr.Tuple(first.e, rest.e, if rest.e.Tuple? then rest.e.length + 1 else 2), rest.s);
    OneToken(first.s);
    TupleRestSound(g, t);
    hide Grammar.TupleRest, Grammar.TupleNext, Steps, Derives, Lists, Taken;
    StepsTrans(start, first.s, t);
    StepsTrans(start, t, q.s);
    if Fine(start, q.s) {
      PairDerives(g.intern, Taken(start, first.s), first.s.rest[0], Taken(t, q.s), first.e, rest.e);
    }
  }

  lemma {:induction false} TupleRestSound(g: Gr.Grammar, s: State)
    ensures SoundList(g, s, g.TupleRest(s))
    decreases |s.rest|, 15
  {
    var p := g.Expression(s);
    RestIs(g, s);
    ExpressionSound(g, s);
    if p.s.Peek() == COMMA { TupleNextSound(g, s, p); }
  }

  lemma RestIs(g: Gr.Grammar, s: State)
    ensures var p := g.Expression(s);
            g.TupleRest(s)
            == if p.s.Peek() == COMMA then g.TupleNext(p.e, p.s.Accept()) else Parsed(Expr.TupleFinal(p.e), p.s)
  {
    hide Grammar.Expression, Grammar.TupleNext;
  }

  lemma {:induction false} ApplicationSound(g: Gr.Grammar, s: State)
    ensures Sound(g, 7, s, g.Application(s))
    decreases |s.rest|, 3
  {
    var p := g.Primary(s);
    assert g.Application(s) == g.Arguments(p.e, p.s);
    hide Grammar.Primary, Grammar.Arguments, Sound;
    PrimarySound(g, s);
    LowerSound(g, 8, 7, s, p);
    ArgumentsSound(g, s, p);
  }

  lemma {:induction false} ArgumentsSound(g: Gr.Grammar, start: State, p: Parsed)
    requires Sound(g, 7, start, p)
    ensures Sound(g, 7, start, g.Arguments(p.e, p.s))
    decreases |p.s.rest|, 2
  {
    if IsPrimary(p.s.Peek()) {
      var q := g.Primary(p.s);
      assert g.Arguments(p.e, p.s) == g.Arguments(Apply(p.e, q.e), q.s);
      PrimarySound(g, p.s);
      hide Grammar.Primary, Grammar.Arguments, Steps, Derives, Taken;
      StepsTrans(start, p.s, q.s);
      if Fine(start, q.s) {
        DerivesSomething(g.intern, 7, Taken(start, p.s), p.e);
        DerivesSomething(g.intern, 8, Taken(p.s, q.s), q.e);
        ApplyDerives(g.intern, Taken(start, p.s), Taken(p.s, q.s), p.e, q.e);
      }
      ArgumentsSound(g, start, Parsed(Apply(p.e, q.e), q.s));
    }
  }

  lemma {:induction false} UnarySound(g: Gr.Grammar, s: State)
    ensures Sound(g, 6, s, g.UnaryLevel(s))
    decreases |s.rest|, 4
  {
    if s.Peek() == PLUS || s.Peek() == MINUS {
      var t, op := s.Skip(), if s.Peek() == PLUS then UnaryPlus else UnaryMinus;
      var p := g.UnaryLevel(t);
      assert g.UnaryLevel(s) == Parsed(Unary(op, p.e), p.s);
      OneToken(s);
      UnarySound(g, t);
      hide Grammar.UnaryLevel, Steps, Derives, Taken;
      StepsTrans(s, t, p.s);
      if Fine(s, p.s) { UnaryDerives(g.intern, s.rest[0], Taken(t, p.s), op, p.e); }
    } else {
      assert g.UnaryLevel(s) == g.Application(s);
      hide Grammar.UnaryLevel, Grammar.Application, Sound;
      ApplicationSound(g, s);
      LowerSound(g, 7, 6, s, g.Application(s));
    }
  }

  /** One more operator and operand. */
  lemma OperatorSound(g: Gr.Grammar, k: nat, start: State, p: Parsed, op: BinaryOp, q: Parsed, t: State)
    requires k < 8 && Sound(g, k, start, p) && p.s.rest != [] && IsOperator(k, p.s.rest[0].kind, op)
    requires (t == p.s.Skip() || t == p.s.Accept()) && Sound(g, k + 1, t, q)
    ensures Sound(g, k, start, Parsed(Binary(op, p.e, q.e), q.s))
  {
    OneToken(p.s);
    hide Steps, Derives, Taken, IsOperator;
    StepsTrans(start, p.s, t);
    StepsTrans(start, t, q.s);
    if Fine(start, q.s) {
      BinaryDerives(g.intern, k, Taken(start, p.s), p.s.rest[0], Taken(t, q.s), op, p.e, q.e);
    }
  }

  lemma {:induction false} FactorSound(g: Gr.Grammar, s: State)
    ensures Sound(g, 5, s, g.Factor(s))
    decreases |s.rest|, 6
  {
    var p := g.UnaryLevel(s);
    assert g.Factor(s) == g.Factors(p.e, p.s);
    hide Grammar.UnaryLevel, Grammar.Factors, Sound;
    UnarySound(g, s);
    LowerSound(g, 6, 5, s, p);
    FactorsSound(g, s, p);
  }

  lemma {:induction false} FactorsSound(g: Gr.Grammar, start: State, p: Parsed)
    requires Sound(g, 5, start, p)
    ensures Sound(g, 5, start, g.Factors(p.e, p.s))
    decreases |p.s.rest|, 5
  {
    if p.s.Peek() == STAR || p.s.Peek() == SLASH {
      var t, op := p.s.Skip(), if p.s.Peek() == STAR then Star else Slash;
      var q := g.UnaryLevel(t);
      assert g.Factors(p.e, p.s) == g.Factors(Binary(op, p.e, q.e), q.s);
      hide Grammar.UnaryLevel, Grammar.Factors, Sound;
      UnarySound(g, t);
      OperatorSound(g, 5, start, p, op, q, t);
      FactorsSound(g, start, Parsed(Binary(op, p.e, q.e), q.s));
    }
  }

  lemma {:induction false} TermSound(g: Gr.Grammar, s: State)
    ensures Sound(g, 4, s, g.Term(s))
    decreases |s.rest|, 8
  {
    var p := g.Factor(s);
    assert g.Term(s) == g.Terms(p.e, p.s);
    hide Grammar.Factor, Grammar.Terms, Sound;
    FactorSound(g, s);
    LowerSound(g, 5, 4, s, p);
    TermsSound(g, s, p);
  }

  lemma {:induction false} TermsSound(g: Gr.Grammar, start: State, p: Parsed)
    requires Sound(g, 4, start, p)
    ensures Sound(g, 4, start, g.Terms(p.e, p.s))
    decreases |p.s.rest|, 7
  {
    if p.s.Peek() == PLUS || p.s.Peek() == MINUS {
      var t, op := p.s.Skip(), if p.s.Peek() == PLUS then Plus else Minus;
      var q := g.Factor(t);
      assert g.Terms(p.e, p.s) == g.Terms(Binary(op, p.e, q.e), q.s);
      hide Grammar.Factor, Grammar.Terms, Sound;
      FactorSound(g, t);
      OperatorSound(g, 4, start, p, op, q, t);
      TermsSound(g, start, Parsed(Binary(op, p.e, q.e), q.s));
    }
  }

  lemma {:induction false} ComparisonSound(g: Gr.Grammar, s: State)
    ensures Sound(g, 3, s, g.Comparison(s))
    decreases |s.rest|, 10
  {
    var p := g.Term(s);
    assert g.Comparison(s) == g.Comparisons(p.e, p.s);
    hide Grammar.Term, Grammar.Comparisons, Sound;
    TermSound(g, s);
    LowerSound(g, 4, 3, s, p);
    ComparisonsSound(g, s, p);
  }

  lemma {:induction false} ComparisonsSound(g: Gr.Grammar, start: State, p: Parsed)
    requires Sound(g, 3, start, p)
    ensures Sound(g, 3, start, g.Comparisons(p.e, p.s))
    decreases |p.s.rest|, 9
  {
    if p.s.Peek() == EQUALS {
      var t := p.s.Accept();
      var q := g.Term(t);
      assert g.Comparisons(p.e, p.s) == g.Comparisons(Binary(Equals, p.e, q.e), q.s);
      hide Grammar.Term, Grammar.Comparisons, Sound;
      TermSound(g, t);
      OperatorSound(g, 3, start, p, Equals, q, t);
      ComparisonsSound(g, start, Parsed(Binary(Equals, p.e, q.e), q.s));
    }
  }

  /** A name. */
  lemma NameSound(g: Gr.Grammar, s: State)
    ensures var (id, t) := g.Name(s);
            && Steps(s, t)
            && (Fine(s, t) ==> s.rest != [] && s.rest[0].kind == ID && id == g.intern(s.rest[0].text) &&
                               Taken(s, t) == [s.rest[0]])
  {
    if s.Peek() == ID { OneToken(s); } else { Failing(s); }
  }

  lemma {:induction false} FunctionSound(g: Gr.Grammar, s: State)
    ensures Sound(g, 2, s, g.Function(s))
    decreases |s.rest|, 11
  {
    if s.Peek() == FN {
      LambdaSound(g, s);
    } else {
      assert g.Function(s) == g.Comparison(s);
      hide Grammar.Function, Grammar.Comparison, Sound;
      ComparisonSound(g, s);
      LowerSound(g, 3, 2, s, g.Comparison(s));
    }
  }

  /** A parameter and the arrow after it. */
  lemma ParameterSound(g: Gr.Grammar, s: State)
    ensures var (id, t) := g.Name(s);
            var u := t.Expect(ARROW);
            && Steps(s, u)
            && (Fine(s, u) ==> |Taken(s, u)| == 2 && Taken(s, u)[0].kind == ID && Taken(s, u)[1].kind == ARROW
                               && id == g.intern(Taken(s, u)[0].text))
  {
    NameSound(g, s);
    var t := g.Name(s).1;
    Expecting(t, ARROW);
    hide Steps, Taken, Grammar.Name;
    StepsTrans(s, t, t.Expect(ARROW));
  }

  lemma {:induction false} LambdaSound(g: Gr.Grammar, s: State)
    requires s.rest != [] && s.Peek() == FN
    ensures Sound(g, 2, s, g.Function(s))
    decreases |s.rest|, 0
  {
    var s1 := s.Accept();
    var (id, s2) := g.Name(s1);
    var s3 := s2.Expect(ARROW);
    var p := g.Expression(s3);
    FunctionIs(g, s);
    OneToken(s);
    ParameterSound(g, s1);
    assert |s3.rest| < |s.rest|;
    hide Grammar.Expression, Grammar.Function, Grammar.Name, Steps, Derives, Taken;
    StepsTrans(s, s1, s3);
    ExpressionSound(g, s3);
    StepsTrans(s, s3, p.s);
    if Fine(s, p.s) {
      var q := Taken(s1, s3);
      assert [s.rest[0]] + q == [s.rest[0], q[0], q[1]];
      LambdaDerives(g.intern, s.rest[0], q[0], q[1], Taken(s3, p.s), p.e);
    }
  }

  lemma FunctionIs(g: Gr.Grammar, s: State)
    requires s.rest != [] && s.Peek() == FN
    ensures var (id, s2) := g.Name(s.Accept());
            var p := g.Expression(s2.Expect(ARROW));
            g.Function(s) == Parsed(Lambda(id, p.e), p.s)
  {
    hide Grammar.Expression, Grammar.Name;
  }

  /** An expression and the keyword after it. */
  lemma {:induction false} BeforeSound(g: Gr.Grammar, k: Kind, s: State)
    requires k != EOF
    ensures var q := g.Before(k, s);
            Steps(s, q.s) && (Fine(s, q.s) ==> DerivesBefore(g.intern, k, Taken(s, q.s), q.e))
    decreases |s.rest|, 15
  {
    var p := g.Expression(s);
    hide Grammar.Expression, Steps, Derives, Taken;
    ExpressionSound(g, s);
    Expecting(p.s, k);
    StepsTrans(s, p.s, p.s.Expect(k));
    if Fine(s, p.s.Expect(k)) {
      assert (Taken(s, p.s) + [p.s.rest[0]])[..|Taken(s, p.s)|] == Taken(s, p.s);
    }
  }

  lemma {:induction false} ConditionalSound(g: Gr.Grammar, s: State)
    ensures Sound(g, 1, s, g.Conditional(s))
    decreases |s.rest|, 12
  {
    if s.Peek() == Kind.IF {
      IfSound(g, s);
    } else {
      assert g.Conditional(s) == g.Function(s);
      hide Grammar.Conditional, Grammar.Function, Sound;
      FunctionSound(g, s);
      LowerSound(g, 2, 1, s, g.Function(s));
    }
  }

  lemma {:induction false} IfSound(g: Gr.Grammar, s: State)
    requires s.rest != [] && s.Peek() == Kind.IF
    ensures Sound(g, 1, s, g.Conditional(s))
    decreases |s.rest|, 0
  {
    var s1 := s.Accept();
    var test := g.Before(THEN, s1);
    var a := g.Before(ELSE, test.s);
    var b := g.Expression(a.s);
    assert g.Conditional(s) == Parsed(If(test.e, a.e, b.e), b.s);
    OneToken(s);
    hide Grammar.Expression, Grammar.Conditional, Grammar.Before, Steps, Derives, DerivesBefore, Taken;
    BeforeSound(g, THEN, s1);
    BeforeSound(g, ELSE, test.s);
    ExpressionSound(g, a.s);
    StepsTrans(s, s1, test.s);
    StepsTrans(s, test.s, a.s);
    StepsTrans(s, a.s, b.s);
    if Fine(s, b.s) {
      IfDerives(g.intern, s.rest[0], Taken(s1, test.s), Taken(test.s, a.s), Taken(a.s, b.s), test.e, a.e, b.e);
    }
  }

  /** The name and the sign after it. */
  lemma HeaderSound(g: Gr.Grammar, s: State)
    ensures var (recursive, id, t) := g.Header(s);
            && Steps(s, t) && |t.rest| <= |s.rest|
            && (Fine(s, t) ==> IsHeader(g.intern, Taken(s, t), recursive, id))
  {
    var s1 := if s.Peek() == REC then s.Accept() else s;
    if s.Peek() == REC { OneToken(s); } else { Stay(s); }
    NameSound(g, s1);
    var s2 := g.Name(s1).1;
    Expecting(s2, EQUALS);
    var t := s2.Expect(EQUALS);
    hide Steps, Taken, Grammar.Name;
    StepsTrans(s, s1, s2);
    StepsTrans(s, s2, t);
    StepsLess(s, t);
  }

  lemma StepsLess(s: State, t: State)
    requires Steps(s, t)
    ensures |t.rest| <= |s.rest|
  {
  }

  lemma {:induction false} DefinitionSound(g: Gr.Grammar, s: State)
    ensures Sound(g, 0, s, g.Definition(s))
    decreases |s.rest|, 13
  {
    if s.Peek() == LET {
      LetSound(g, s);
    } else {
      assert g.Definition(s) == g.Conditional(s);
      hide Grammar.Conditional, Grammar.Definition, Sound;
      ConditionalSound(g, s);
      LowerSound(g, 1, 0, s, g.Conditional(s));
    }
  }

  lemma {:induction false} LetSound(g: Gr.Grammar, s: State)
    requires s.rest != [] && s.Peek() == LET
    ensures Sound(g, 0, s, g.Definition(s))
    decreases |s.rest|, 0
  {
    LetIs(g, s);
    OneToken(s);
    hide *;
    var s0 := s.Accept();
    var (recursive, id, s1) := g.Header(s0);
    var value := g.Before(IN, s1);
    var body := g.Expression(value.s);
    HeaderSound(g, s0);
    BeforeSound(g, IN, s1);
    StepsLess(s, s0);
    StepsLess(s1, value.s);
    ExpressionSound(g, value.s);
    SoundParts(g, 0, value.s, body);
    LetChain(g.intern, s, s0, s1, value.s, body.s, recursive, id, value.e, body.e);
    SoundFrom(g, 0, s, g.Definition(s));
  }

  /** A name, perhaps after `rec`, and the sign. */
  predicate IsHeader(intern: string -> Symbol, h: seq<Token>, recursive: bool, id: Symbol) {
    && |h| == (if recursive then 3 else 2) && (recursive ==> h[0].kind == REC)
    && h[|h| - 2].kind == ID && id == intern(h[|h| - 2].text) && h[|h| - 1].kind == EQUALS
  }

  lemma LetChain(intern: string -> Symbol, s: State, s0: State, s1: State, t: State, u: State, recursive: bool,
                 id: Symbol, value: Expr, body: Expr)
    requires s.rest != [] && s.Peek() == LET && Steps(s, s0) && |s0.rest| <= |s.rest| && Taken(s, s0) == [s.rest[0]]
    requires Steps(s0, s1) && |s1.rest| <= |s0.rest|
    requires Fine(s0, s1) ==> IsHeader(intern, Taken(s0, s1), recursive, id)
    requires Steps(s1, t) && |t.rest| <= |s1.rest| && (Fine(s1, t) ==> DerivesBefore(intern, IN, Taken(s1, t), value))
    requires Steps(t, u) && |u.rest| <= |t.rest| && (Fine(t, u) ==> Derives(intern, 0, Taken(t, u), body))
    ensures Steps(s, u)
    ensures Fine(s, u) ==>
              Derives(intern, 0, Taken(s, u), if recursive then LetRec(id, value, body) else Let(id, value, body))
  {
    hide Steps, Taken, Derives, DerivesBefore, IsHeader;
    StepsTrans(s, s0, s1);
    StepsTrans(s, s1, t);
    StepsTrans(s, t, u);
    if Fine(s, u) {
      LetJoins(intern, s.rest[0], Taken(s0, s1), Taken(s1, t), Taken(t, u), recursive, id, value, body);
    }
  }

  lemma SoundParts(g: Gr.Grammar, k: nat, start: State, p: Parsed)
    requires k <= 8 && Sound(g, k, start, p)
    ensures Steps(start, p.s) && |p.s.rest| <= |start.rest|
    ensures Fine(start, p.s) ==> Derives(g.intern, k, Taken(start, p.s), p.e)
  {
  }

  lemma SoundFrom(g: Gr.Grammar, k: nat, start: State, p: Parsed)
    requires k <= 8 && Steps(start, p.s) && |p.s.rest| <= |start.rest|
    requires Fine(start, p.s) ==> Derives(g.intern, k, Taken(start, p.s), p.e)
    ensures Sound(g, k, start, p)
  {
  }

  lemma LetIs(g: Gr.Grammar, s: State)
    requires s.rest != [] && s.Peek() == LET
    ensures var (recursive, id, s1) := g.Header(s.Accept());
            var value := g.Before(IN, s1);
            var body := g.Expression(value.s);
            && g.Definition(s)
               == Parsed(if recursive then LetRec(id, value.e, body.e) else Let(id, value.e, body.e), body.s)
            && |s1.rest| < |s.rest| && |value.s.rest| < |s.rest|
  {
    hide Grammar.Expression, Grammar.Before, Grammar.Header;
  }

  lemma LetJoins(intern: string -> Symbol, l: Token, h: seq<Token>, x: seq<Token>, y: seq<Token>, recursive: bool,
                 id: Symbol, value: Expr, body: Expr)
    requires l.kind == LET && IsHeader(intern, h, recursive, id)
    requires DerivesBefore(intern, IN, x, value) && Derives(intern, 0, y, body)
    ensures Derives(intern, 0, [l] + h + x + y, if recursive then LetRec(id, value, body) else Let(id, value, body))
  {
    hide Derives, DerivesBefore;
    var head := [l] + h;
    assert head[0] == l && forall i :: 0 <= i < |h| ==> head[i + 1] == h[i];
    LetDerives(intern, head, x, y, value, body);
  }

  /** The tokens that an expression is read from without an error stand for it. */
  lemma {:induction false} ExpressionSound(g: Gr.Grammar, s: State)
    ensures Sound(g, 0, s, g.Expression(s))
    decreases |s.rest|, 14
  {
    assert g.Expression(s) == g.Definition(s);
    hide Grammar.Definition, Grammar.Expression;
    DefinitionSound(g, s);
  }
}
