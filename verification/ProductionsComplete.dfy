/** What tokens stand for, the productions read, whatever follows that cannot go on with it. */
module ProductionsComplete {
  import opened Syntax
  import opened Gr = Grammar
  import opened Derivations
  import opened ProductionsSound

  // ----- Levels -----

  /** The production for each level, and the loop with which it goes on after an operand. */
  function ParseAt(g: Gr.Grammar, level: nat, s: State): Parsed {
    match level
    case 0 => g.Definition(s)
    case 1 => g.Conditional(s)
    case 2 => g.Function(s)
    case 3 => g.Comparison(s)
    case 4 => g.Term(s)
    case 5 => g.Factor(s)
    case 6 => g.UnaryLevel(s)
    case 7 => g.Application(s)
    case _ => g.Primary(s)
  }

  function GoOnAt(g: Gr.Grammar, level: nat, e: Expr, s: State): Parsed {
    match level
    case 3 => g.Comparisons(e, s)
    case 4 => g.Terms(e, s)
    case 5 => g.Factors(e, s)
    case 7 => g.Arguments(e, s)
    case _ => Parsed(e, s)
  }

  /** A token with which an expression of this level, or any operand in it, does not go on. */
  predicate Stops(level: nat, k: Kind) {
    && (level <= 7 ==> !IsPrimary(k)) && (level <= 5 ==> k != STAR && k != SLASH)
    && (level <= 4 ==> k != PLUS && k != MINUS) && (level <= 3 ==> k != EQUALS)
  }

  predicate Starts(level: nat, k: Kind) {
    && (level >= 7 ==> IsPrimary(k)) && (level >= 3 ==> IsPrimary(k) || k == PLUS || k == MINUS)
    && (level >= 1 ==> k != LET) && (level >= 2 ==> k != Kind.IF)
  }

  lemma {:induction false} DerivesStarts(intern: string -> Symbol, k: nat, ts: seq<Token>, e: Expr)
    requires k <= 8 && Derives(intern, k, ts, e)
    ensures ts != [] && Starts(k, ts[0].kind)
    decreases |ts|, 10 - k
  {
    DerivesSomething(intern, k, ts, e);
    if k < 8 && Derives(intern, k + 1, ts, e) {
      DerivesStarts(intern, k + 1, ts, e);
    } else if e.Binary? && Builds(intern, k, ts, e) {
      var i :| 0 <= i < |ts| && IsOperator(k, ts[i].kind, e.bop) && Derives(intern, k, ts[..i], e.left);
      DerivesStarts(intern, k, ts[..i], e.left);
    } else if e.Apply? && Builds(intern, k, ts, e) {
      var i :| 0 < i < |ts| && Derives(intern, 7, ts[..i], e.function_);
      DerivesStarts(intern, 7, ts[..i], e.function_);
    }
  }

  function At(tokens: seq<Token>, errors: nat): State { State(tokens, 0, errors) }

  lemma NextProduction(g: Gr.Grammar, e: Expr, level: nat, s: State, t: State)
    requires level < 8 && s.rest != [] && Starts(level + 1, s.Peek()) && Stops(level + 1, t.Peek())
    requires ParseAt(g, level + 1, s) == GoOnAt(g, level + 1, e, t)
    ensures ParseAt(g, level, s) == GoOnAt(g, level, e, t)
  {
  }

  lemma GoOnStops(g: Gr.Grammar, level: nat, e: Expr, s: State)
    requires Stops(level, s.Peek())
    ensures GoOnAt(g, level, e, s) == Parsed(e, s)
  {
  }

  /** One token. */
  lemma Shift(t: Token, rest: seq<Token>, errors: nat)
    requires t.kind != EOF
    ensures var s := At([t] + rest, errors);
            s.Peek() == t.kind && s.rest[0] == t && s.Accept() == s.Skip() == At(rest, errors) &&
            s.Expect(t.kind) == At(rest, errors)
  {
    assert ([t] + rest)[1..] == rest;
  }

  // ----- One production -----

  /** What the parser makes of an operator between what it has read and another operand. */
  lemma Operator(g: Gr.Grammar, k: nat, op: BinaryOp, l: Expr, r: Expr, t: Token, operand: seq<Token>,
                 rest: seq<Token>, errors: nat)
    requires IsOperator(k, t.kind, op) && ParseAt(g, k + 1, At(operand + rest, errors)) == Parsed(r, At(rest, errors))
    ensures Stops(k + 1, t.kind)
    ensures GoOnAt(g, k, l, At([t] + (operand + rest), errors)) == GoOnAt(g, k, Binary(op, l, r), At(rest, errors))
  {
    Shift(t, operand + rest, errors);
  }

  lemma Argument(g: Gr.Grammar, f: Expr, a: Expr, operand: seq<Token>, rest: seq<Token>, errors: nat)
    requires operand != [] && IsPrimary(operand[0].kind) && g.Primary(At(operand + rest, errors))
             == Parsed(a, At(rest, errors))
    ensures g.Arguments(f, At(operand + rest, errors)) == g.Arguments(Apply(f, a), At(rest, errors))
  {
  }

  lemma LambdaParses(g: Gr.Grammar, f: Token, i: Token, a: Token, body: Expr, x: seq<Token>, errors: nat, t: State)
    requires f.kind == FN && i.kind == ID && a.kind == ARROW && g.Expression(At(x, errors)) == Parsed(body, t)
    ensures g.Function(At([f] + ([i] + ([a] + x)), errors)) == Parsed(Lambda(g.intern(i.text), body), t)
  {
    Shift(f, [i] + ([a] + x), errors);
    Shift(i, [a] + x, errors);
    Shift(a, x, errors);
    hide Grammar.Expression, Grammar.Comparison;
  }

  lemma IfParses(g: Gr.Grammar, f: Token, n: Token, l: Token, test: Expr, a: Expr, b: Expr, x: seq<Token>,
                 y: seq<Token>, z: seq<Token>, errors: nat, t: State)
    requires f.kind == Kind.IF && n.kind == THEN && l.kind == ELSE
    requires g.Expression(At(x, errors)) == Parsed(test, At([n] + y, errors))
    requires g.Expression(At(y, errors)) == Parsed(a, At([l] + z, errors))
    requires g.Expression(At(z, errors)) == Parsed(b, t)
    ensures g.Conditional(At([f] + x, errors)) == Parsed(If(test, a, b), t)
  {
    Shift(f, x, errors);
    Shift(n, y, errors);
    Shift(l, z, errors);
    hide Grammar.Expression, Grammar.Function;
  }

  lemma LetParses(g: Gr.Grammar, head: seq<Token>, n: Token, value: Expr, body: Expr, x: seq<Token>, y: seq<Token>,
                  errors: nat, t: State)
    requires 3 <= |head| <= 4 && head[0].kind == LET && head[|head| - 2].kind == ID && head[|head| - 1].kind == EQUALS
    requires (|head| == 4 ==> head[1].kind == REC) && n.kind == IN
    requires g.Expression(At(x, errors)) == Parsed(value, At([n] + y, errors))
    requires g.Expression(At(y, errors)) == Parsed(body, t)
    ensures var id := g.intern(head[|head| - 2].text);
            g.Definition(At(head + x, errors))
            == Parsed(if |head| == 4 then LetRec(id, value, body) else Let(id, value, body), t)
  {
    var i, q := head[|head| - 2], head[|head| - 1];
    var r := [i] + ([q] + x);
    if |head| == 4 {
      assert head == [head[0]] + [head[1]] + [i] + [q];
      assert head + x == [head[0]] + ([head[1]] + r);
      Shift(head[0], [head[1]] + r, errors);
      Shift(head[1], r, errors);
    } else {
      assert head == [head[0]] + [i] + [q];
      assert head + x == [head[0]] + r;
      Shift(head[0], r, errors);
    }
    Shift(i, [q] + x, errors);
    Shift(q, x, errors);
    Shift(n, y, errors);
    hide Grammar.Expression, Grammar.Conditional;
  }

  lemma MembersParse(g: Gr.Grammar, c: Token, first: Expr, rest: Expr, length: nat, x: seq<Token>, y: seq<Token>,
                     t: State)
    requires c.kind == COMMA && g.Expression(At(x, t.errors)) == Parsed(first, At([c] + y, t.errors))
    requires g.TupleRest(At(y, t.errors)) == Parsed(rest, t)
    requires length == if rest.Tuple? then rest.length + 1 else 2
    ensures g.TupleRest(At(x, t.errors)) == Parsed(Expr.Tuple(first, rest, length), t)
  {
    Shift(c, y, t.errors);
    assert g.TupleNext(first, At(y, t.errors)) == Parsed(Expr.Tuple(first, rest, length), t);
    hide Grammar.Expression, Grammar.TupleNext;
  }

  lemma LastMember(g: Gr.Grammar, first: Expr, x: seq<Token>, t: State)
    requires g.Expression(At(x, t.errors)) == Parsed(first, t) && t.Peek() != COMMA
    ensures g.TupleRest(At(x, t.errors)) == Parsed(Expr.TupleFinal(first), t)
  {
    hide Grammar.Expression, Grammar.TupleNext;
  }

  /** A tuple is the parenthesised list that starts with its first member. */
  lemma ParenthesesParse(g: Gr.Grammar, l: Token, r: Token, e: Expr, x: seq<Token>, rest: seq<Token>, errors: nat)
    requires l.kind == LPAREN && r.kind == RPAREN
    requires || g.Expression(At(x, errors)) == Parsed(e, At([r] + rest, errors))
             || (e.Tuple? && g.TupleRest(At(x, errors)) == Parsed(e, At([r] + rest, errors)))
    ensures g.Primary(At([l] + x, errors)) == Parsed(e, At(rest, errors))
  {
    Shift(l, x, errors);
    Shift(r, rest, errors);
    hide Grammar.Expression, Grammar.TupleNext;
  }

  // ----- Taking tokens apart -----

  lemma SplitAt(ts: seq<Token>, i: nat)
    requires i < |ts|
    ensures ts == ts[..i] + [ts[i]] + ts[i + 1..] && |ts[..i]| < |ts| && |ts[i + 1..]| < |ts|
  {
  }

  lemma SplitTwice(ts: seq<Token>, i: nat, j: nat)
    requires 1 <= i < j < |ts|
    ensures ts == [ts[0]] + ts[1..i] + [ts[i]] + ts[i + 1..j] + [ts[j]] + ts[j + 1..]
    ensures |ts[1..i]| < |ts| && |ts[i + 1..j]| < |ts| && |ts[j + 1..]| < |ts|
  {
    assert ts[..i] == [ts[0]] + ts[1..i];
    assert ts[..j] == ts[..i] + [ts[i]] + ts[i + 1..j];
    assert ts == ts[..j] + [ts[j]] + ts[j + 1..];
  }

  lemma EnclosedSplit(ts: seq<Token>, rest: seq<Token>)
    requires Enclosed(ts)
    ensures |ts| >= 2 && ts[0].kind == LPAREN && ts[|ts| - 1].kind == RPAREN && |ts[1..|ts| - 1]| < |ts|
    ensures ts + rest == [ts[0]] + (ts[1..|ts| - 1] + ([ts[|ts| - 1]] + rest))
  {
  }

  lemma Around(x: seq<Token>, c: Token, y: seq<Token>, rest: seq<Token>)
    ensures x + [c] + y + rest == x + ([c] + (y + rest))
  {
  }

  // ----- Completeness -----

  /** The production for a level has read what the tokens stand for as its first operand, and goes on
      with what follows. */
  lemma {:induction false} DerivedIsParsed(g: Gr.Grammar, k: nat, ts: seq<Token>, e: Expr, rest: seq<Token>,
                                           errors: nat)
    requires k <= 8 && Derives(g.intern, k, ts, e) && Stops(k + 1, At(rest, errors).Peek())
    ensures ParseAt(g, k, At(ts + rest, errors)) == GoOnAt(g, k, e, At(rest, errors))
    decreases |ts|, 10 - k
  {
    hide ParseAt, GoOnAt;
    if k < 8 && Derives(g.intern, k + 1, ts, e) {
      DerivedIsParsed(g, k + 1, ts, e, rest, errors);
      DerivesStarts(g.intern, k + 1, ts, e);
      assert (ts + rest)[0] == ts[0];
      NextProduction(g, e, k, At(ts + rest, errors), At(rest, errors));
    } else if k == 8 && Enclosed(ts) && Derives(g.intern, 0, ts[1..|ts| - 1], e) {
      GroupIsParsed(g, ts, e, rest, errors);
    } else {
      BuiltIsParsed(g, k, ts, e, rest, errors);
    }
  }

  lemma {:induction false} BuiltIsParsed(g: Gr.Grammar, k: nat, ts: seq<Token>, e: Expr, rest: seq<Token>, errors: nat)
    requires k <= 8 && Builds(g.intern, k, ts, e) && Stops(k + 1, At(rest, errors).Peek())
    ensures ParseAt(g, k, At(ts + rest, errors)) == GoOnAt(g, k, e, At(rest, errors))
    decreases |ts|, 1
  {
    match e
    case Let(_, _, _) => LetIsParsed(g, ts, e, rest, errors);
    case LetRec(_, _, _) => LetIsParsed(g, ts, e, rest, errors);
    case If(_, _, _) => IfIsParsed(g, ts, e, rest, errors);
    case Lambda(_, _) => LambdaIsParsed(g, ts, e, rest, errors);
    case Binary(_, _, _) => BinaryIsParsed(g, k, ts, e, rest, errors);
    case Unary(_, _) => UnaryIsParsed(g, ts, e, rest, errors);
    case Apply(_, _) => ApplyIsParsed(g, ts, e, rest, errors);
    case Tuple(_, _, _) => TupleIsParsed(g, ts, e, rest, errors);
    case _ => AtomIsParsed(g, k, ts, e, rest, errors);
  }

  lemma {:induction false} ExpressionIsParsed(g: Gr.Grammar, ts: seq<Token>, e: Expr, rest: seq<Token>, errors: nat)
    requires Derives(g.intern, 0, ts, e) && Stops(0, At(rest, errors).Peek())
    ensures g.Expression(At(ts + rest, errors)) == Parsed(e, At(rest, errors))
    decreases |ts|, 12
  {
    DerivedIsParsed(g, 0, ts, e, rest, errors);
    hide Grammar.Definition, Derives;
  }

  lemma {:induction false} GroupIsParsed(g: Gr.Grammar, ts: seq<Token>, e: Expr, rest: seq<Token>, errors: nat)
    requires Enclosed(ts) && Derives(g.intern, 0, ts[1..|ts| - 1], e)
    ensures ParseAt(g, 8, At(ts + rest, errors)) == GoOnAt(g, 8, e, At(rest, errors))
    decreases |ts|, 0
  {
    hide *;
    EnclosedSplit(ts, rest);
    var l, x, r := ts[0], ts[1..|ts| - 1], ts[|ts| - 1];
    CommaStops(r, rest, errors);
    ExpressionIsParsed(g, x, e, [r] + rest, errors);
    ParenthesesParse(g, l, r, e, x + ([r] + rest), rest, errors);
    PrimaryIs(g, e, At(ts + rest, errors), At(rest, errors));
  }

  lemma PrimaryIs(g: Gr.Grammar, e: Expr, s: State, t: State)
    ensures ParseAt(g, 8, s) == g.Primary(s) && GoOnAt(g, 8, e, t) == Parsed(e, t)
  {
    hide Grammar.Primary;
  }

  lemma TupleIsEnclosed(intern: string -> Symbol, ts: seq<Token>, e: Expr)
    requires e.Tuple? && Builds(intern, 8, ts, e)
    ensures Enclosed(ts) && |ts| >= 2 && Lists(intern, ts[1..|ts| - 1], e)
  {
  }

  lemma {:induction false} TupleIsParsed(g: Gr.Grammar, ts: seq<Token>, e: Expr, rest: seq<Token>, errors: nat)
    requires e.Tuple? && Builds(g.intern, 8, ts, e)
    ensures ParseAt(g, 8, At(ts + rest, errors)) == GoOnAt(g, 8, e, At(rest, errors))
    decreases |ts|, 0
  {
    hide *;
    TupleIsEnclosed(g.intern, ts, e);
    var l, x, r := ts[0], ts[1..|ts| - 1], ts[|ts| - 1];
    EnclosedSplit(ts, rest);
    FirstPeek(r, rest, errors);
    ListIsParsed(g, x, e, [r] + rest, errors);
    ParenthesesParse(g, l, r, e, x + ([r] + rest), rest, errors);
    PrimaryIs(g, e, At(ts + rest, errors), At(rest, errors));
  }

  lemma FirstPeek(t: Token, rest: seq<Token>, errors: nat)
    ensures At([t] + rest, errors).Peek() == t.kind
  {
  }

  lemma {:induction false} ListIsParsed(g: Gr.Grammar, ts: seq<Token>, e: Expr, rest: seq<Token>, errors: nat)
    requires Lists(g.intern, ts, e) && At(rest, errors).Peek() == RPAREN
    ensures g.TupleRest(At(ts + rest, errors)) == Parsed(e, At(rest, errors))
    decreases |ts|, 13
  {
    if e.TupleFinal? {
      hide Derives, Grammar.Expression, Grammar.TupleRest;
      ExpressionIsParsed(g, ts, e.first, rest, errors);
      LastMember(g, e.first, ts + rest, At(rest, errors));
    } else {
      var x, c, y := ListSplit(g.intern, ts, e);
      hide *;
      Around(x, c, y, rest);
      CommaStops(c, y + rest, errors);
      ExpressionIsParsed(g, x, e.first, [c] + (y + rest), errors);
      ListIsParsed(g, y, e.rest, rest, errors);
      MembersParse(g, c, e.first, e.rest, e.length, x + ([c] + (y + rest)), y + rest, At(rest, errors));
    }
  }

  lemma CommaStops(c: Token, rest: seq<Token>, errors: nat)
    requires c.kind in {COMMA, IN, THEN, ELSE, RPAREN}
    ensures Stops(0, At([c] + rest, errors).Peek())
  {
  }

  lemma ListSplit(intern: string -> Symbol, ts: seq<Token>, e: Expr) returns (x: seq<Token>, c: Token, y: seq<Token>)
    requires Lists(intern, ts, e) && !e.TupleFinal?
    ensures e.Tuple? && (e.rest.Tuple? || e.rest.TupleFinal?) && e.length == if e.rest.Tuple? then e.rest.length + 1
            else 2
    ensures ts == x + [c] + y && c.kind == COMMA && |x| < |ts| && |y| < |ts|
    ensures Derives(intern, 0, x, e.first) && Lists(intern, y, e.rest)
  {
    hide *;
    var i := ListAt(intern, ts, e);
    SplitAt(ts, i);
    x, c, y := ts[..i], ts[i], ts[i + 1..];
  }

  lemma ListAt(intern: string -> Symbol, ts: seq<Token>, e: Expr) returns (i: nat)
    requires Lists(intern, ts, e) && !e.TupleFinal?
    ensures e.Tuple? && (e.rest.Tuple? || e.rest.TupleFinal?) && e.length == if e.rest.Tuple? then e.rest.length + 1
            else 2
    ensures i < |ts| && ts[i].kind == COMMA && Derives(intern, 0, ts[..i], e.first) &&
            Lists(intern, ts[i + 1..], e.rest)
  {
    i :| 0 <= i < |ts| && ts[i].kind == COMMA && Derives(intern, 0, ts[..i], e.first) &&
      Lists(intern, ts[i + 1..], e.rest);
  }

  lemma AtomIsParsed(g: Gr.Grammar, k: nat, ts: seq<Token>, e: Expr, rest: seq<Token>, errors: nat)
    requires k <= 8 && (e.Literal? || e.True? || e.False? || e.Identifier? || e.Error? || e.Invalid? || e.TupleFinal?)
    requires Builds(g.intern, k, ts, e)
    ensures ParseAt(g, k, At(ts + rest, errors)) == GoOnAt(g, k, e, At(rest, errors))
  {
    assert k == 8 && |ts| == 1;
    var t := ts[0];
    assert ts == [t];
    Shift(t, rest, errors);
    if e.Literal? { LiteralExactly(t.text); }
    hide ReadAs;
  }

  lemma {:induction false} BinaryIsParsed(g: Gr.Grammar, k: nat, ts: seq<Token>, e: Expr, rest: seq<Token>, errors: nat)
    requires k <= 8 && e.Binary? && Builds(g.intern, k, ts, e) && Stops(k + 1, At(rest, errors).Peek())
    ensures ParseAt(g, k, At(ts + rest, errors)) == GoOnAt(g, k, e, At(rest, errors))
    decreases |ts|, 0
  {
    hide *;
    var i := OperatorAt(g.intern, k, ts, e);
    var x, t, y := ts[..i], ts[i], ts[i + 1..];
    SplitAt(ts, i);
    Around(x, t, y, rest);
    StopsHigher(k + 1, At(rest, errors).Peek());
    DerivedIsParsed(g, k + 1, y, e.right, rest, errors);
    GoOnStops(g, k + 1, e.right, At(rest, errors));
    Operator(g, k, e.bop, e.left, e.right, t, y, rest, errors);
    FirstPeek(t, y + rest, errors);
    DerivedIsParsed(g, k, x, e.left, [t] + (y + rest), errors);
  }

  lemma StopsHigher(k: nat, kind: Kind)
    requires Stops(k, kind)
    ensures Stops(k + 1, kind)
  {
  }

  lemma OperatorAt(intern: string -> Symbol, k: nat, ts: seq<Token>, e: Expr) returns (i: nat)
    requires k <= 8 && e.Binary? && Builds(intern, k, ts, e)
    ensures k < 8 && i < |ts| && IsOperator(k, ts[i].kind, e.bop) && Derives(intern, k, ts[..i], e.left)
    ensures Derives(intern, k + 1, ts[i + 1..], e.right) && e == Binary(e.bop, e.left, e.right)
  {
    i :| 0 <= i < |ts| && IsOperator(k, ts[i].kind, e.bop) && k < 8 && Derives(intern, k, ts[..i], e.left) &&
      Derives(intern, k + 1, ts[i + 1..], e.right);
  }

  lemma {:induction false} UnaryIsParsed(g: Gr.Grammar, ts: seq<Token>, e: Expr, rest: seq<Token>, errors: nat)
    requires e.Unary? && Builds(g.intern, 6, ts, e) && Stops(7, At(rest, errors).Peek())
    ensures ParseAt(g, 6, At(ts + rest, errors)) == GoOnAt(g, 6, e, At(rest, errors))
    decreases |ts|, 0
  {
    assert Derives(g.intern, 6, ts[1..], e.arg);
    hide Derives;
    var t, x := ts[0], ts[1..];
    assert ts + rest == [t] + (x + rest);
    DerivedIsParsed(g, 6, x, e.arg, rest, errors);
    Shift(t, x + rest, errors);
  }

  lemma {:induction false} ApplyIsParsed(g: Gr.Grammar, ts: seq<Token>, e: Expr, rest: seq<Token>, errors: nat)
    requires e.Apply? && Builds(g.intern, 7, ts, e)
    ensures ParseAt(g, 7, At(ts + rest, errors)) == GoOnAt(g, 7, e, At(rest, errors))
    decreases |ts|, 0
  {
    var i :| 0 < i < |ts| && Derives(g.intern, 7, ts[..i], e.function_) && Derives(g.intern, 8, ts[i..], e.argument);
    var x, y := ts[..i], ts[i..];
    DerivesStarts(g.intern, 8, y, e.argument);
    hide Derives, Builds, Grammar.Primary, Grammar.Application, Grammar.Arguments;
    assert ts + rest == x + (y + rest) && (y + rest)[0] == y[0];
    DerivedIsParsed(g, 8, y, e.argument, rest, errors);
    Argument(g, e.function_, e.argument, y, rest, errors);
    DerivedIsParsed(g, 7, x, e.function_, y + rest, errors);
  }

  lemma {:induction false} LambdaIsParsed(g: Gr.Grammar, ts: seq<Token>, e: Expr, rest: seq<Token>, errors: nat)
    requires e.Lambda? && Builds(g.intern, 2, ts, e) && Stops(3, At(rest, errors).Peek())
    ensures ParseAt(g, 2, At(ts + rest, errors)) == GoOnAt(g, 2, e, At(rest, errors))
    decreases |ts|, 0
  {
    assert |ts| > 3 && Derives(g.intern, 0, ts[3..], e.body);
    var f, i, a, x := ts[0], ts[1], ts[2], ts[3..] + rest;
    assert f.kind == FN && i.kind == ID && g.intern(i.text) == e.param && a.kind == ARROW;
    hide Derives, Builds, Grammar.Expression, Grammar.Function;
    assert ts + rest == [f] + ([i] + ([a] + x));
    ExpressionIsParsed(g, ts[3..], e.body, rest, errors);
    LambdaParses(g, f, i, a, e.body, x, errors, At(rest, errors));
  }

  lemma {:induction false} IfIsParsed(g: Gr.Grammar, ts: seq<Token>, e: Expr, rest: seq<Token>, errors: nat)
    requires e.If? && Builds(g.intern, 1, ts, e) && Stops(2, At(rest, errors).Peek())
    ensures ParseAt(g, 1, At(ts + rest, errors)) == GoOnAt(g, 1, e, At(rest, errors))
    decreases |ts|, 0
  {
    var f, x, n, y, l, z := IfSplit(g.intern, ts, e);
    hide *;
    var z', y' := z + rest, y + ([l] + (z + rest));
    var x' := x + ([n] + y');
    IfGrouped(f, x, n, y, l, z, rest);
    CommaStops(n, y', errors);
    CommaStops(l, z', errors);
    ExpressionIsParsed(g, x, e.test, [n] + y', errors);
    ExpressionIsParsed(g, y, e.then_, [l] + z', errors);
    SameStops(1, 0, At(rest, errors).Peek());
    ExpressionIsParsed(g, z, e.else_, rest, errors);
    IfParses(g, f, n, l, e.test, e.then_, e.else_, x', y', z', errors, At(rest, errors));
    ParsesAre(g, e, At(ts + rest, errors), At(rest, errors));
  }

  lemma SameStops(k: nat, j: nat, kind: Kind)
    requires k <= 3 && j <= 3 && Stops(k, kind)
    ensures Stops(j, kind)
  {
  }

  lemma ParsesAre(g: Gr.Grammar, e: Expr, s: State, t: State)
    ensures ParseAt(g, 0, s) == g.Definition(s) && ParseAt(g, 1, s) == g.Conditional(s)
    ensures GoOnAt(g, 0, e, t) == GoOnAt(g, 1, e, t) == Parsed(e, t)
  {
    hide Grammar.Definition, Grammar.Conditional;
  }

  lemma IfSplit(intern: string -> Symbol, ts: seq<Token>, e: Expr)
    returns (f: Token, x: seq<Token>, n: Token, y: seq<Token>, l: Token, z: seq<Token>)
    requires e.If? && Builds(intern, 1, ts, e)
    ensures ts == [f] + x + [n] + y + [l] + z && |x| < |ts| && |y| < |ts| && |z| < |ts|
    ensures f.kind == Kind.IF && n.kind == THEN && l.kind == ELSE
    ensures Derives(intern, 0, x, e.test) && Derives(intern, 0, y, e.then_) && Derives(intern, 0, z, e.else_)
  {
    hide *;
    var i, j := IfAt(intern, ts, e);
    SplitTwice(ts, i, j);
    f, x, n, y, l, z := ts[0], ts[1..i], ts[i], ts[i + 1..j], ts[j], ts[j + 1..];
  }

  lemma IfAt(intern: string -> Symbol, ts: seq<Token>, e: Expr) returns (i: nat, j: nat)
    requires e.If? && Builds(intern, 1, ts, e)
    ensures 1 <= i < j < |ts| && ts[0].kind == Kind.IF && ts[i].kind == THEN && ts[j].kind == ELSE
    ensures Derives(intern, 0, ts[1..i], e.test) && Derives(intern, 0, ts[i + 1..j], e.then_)
    ensures Derives(intern, 0, ts[j + 1..], e.else_)
  {
    i, j :| 1 <= i < j < |ts| && ts[i].kind == THEN && ts[j].kind == ELSE
      && Derives(intern, 0, ts[1..i], e.test) && Derives(intern, 0, ts[i + 1..j], e.then_)
      && Derives(intern, 0, ts[j + 1..], e.else_);
  }

  lemma IfGrouped(f: Token, x: seq<Token>, n: Token, y: seq<Token>, l: Token, z: seq<Token>, rest: seq<Token>)
    ensures [f] + x + [n] + y + [l] + z + rest == [f] + (x + ([n] + (y + ([l] + (z + rest)))))
  {
  }

  lemma {:induction false} LetIsParsed(g: Gr.Grammar, ts: seq<Token>, e: Expr, rest: seq<Token>, errors: nat)
    requires (e.Let? || e.LetRec?) && Builds(g.intern, 0, ts, e) && Stops(1, At(rest, errors).Peek())
    ensures ParseAt(g, 0, At(ts + rest, errors)) == GoOnAt(g, 0, e, At(rest, errors))
    decreases |ts|, 0
  {
    var head, x, n, y := LetSplit(g.intern, ts, e);
    hide *;
    var y' := y + rest;
    var x' := x + ([n] + y');
    LetGrouped(head, x, n, y, rest);
    CommaStops(n, y', errors);
    ExpressionIsParsed(g, x, e.value_, [n] + y', errors);
    SameStops(1, 0, At(rest, errors).Peek());
    ExpressionIsParsed(g, y, e.body, rest, errors);
    LetParses(g, head, n, e.value_, e.body, x', y', errors, At(rest, errors));
    ParsesAre(g, e, At(ts + rest, errors), At(rest, errors));
  }

  lemma LetSplit(intern: string -> Symbol, ts: seq<Token>, e: Expr)
    returns (head: seq<Token>, x: seq<Token>, n: Token, y: seq<Token>)
    requires (e.Let? || e.LetRec?) && Builds(intern, 0, ts, e)
    ensures |head| == (if e.LetRec? then 4 else 3) && head[0].kind == LET && head[|head| - 2].kind == ID
    ensures head[|head| - 1].kind == EQUALS && (|head| == 4 ==> head[1].kind == REC) && n.kind == IN
    ensures e.id == intern(head[|head| - 2].text)
    ensures ts == head + x + [n] + y && |x| < |ts| && |y| < |ts|
    ensures Derives(intern, 0, x, e.value_) && Derives(intern, 0, y, e.body)
  {
    hide *;
    var h := LetHead(intern, ts, e);
    var i := DefinesAt(intern, ts[h..], e.value_, e.body);
    LetAround(ts, h, i);
    head, x, n, y := ts[..h], ts[h..][..i], ts[h..][i], ts[h..][i + 1..];
  }

  lemma LetAround(ts: seq<Token>, h: nat, i: nat)
    requires 0 < h <= |ts| && i < |ts[h..]|
    ensures ts == ts[..h] + ts[h..][..i] + [ts[h..][i]] + ts[h..][i + 1..]
    ensures |ts[h..][..i]| < |ts| && |ts[h..][i + 1..]| < |ts|
  {
    SplitAt(ts[h..], i);
    assert ts == ts[..h] + ts[h..];
  }

  lemma LetHead(intern: string -> Symbol, ts: seq<Token>, e: Expr) returns (h: nat)
    requires (e.Let? || e.LetRec?) && Builds(intern, 0, ts, e)
    ensures h == (if e.LetRec? then 4 else 3) && |ts| > h && ts[..h][0].kind == LET && ts[..h][h - 2].kind == ID
    ensures ts[..h][h - 1].kind == EQUALS && (h == 4 ==> ts[..h][1].kind == REC)
    ensures e.id == intern(ts[..h][h - 2].text) && Defines(intern, ts[h..], e.value_, e.body)
  {
    h := if e.LetRec? then 4 else 3;
  }

  lemma DefinesAt(intern: string -> Symbol, ts: seq<Token>, value: Expr, body: Expr) returns (i: nat)
    requires Defines(intern, ts, value, body)
    ensures i < |ts| && ts[i].kind == IN && Derives(intern, 0, ts[..i], value) && Derives(intern, 0, ts[i + 1..], body)
  {
    i :| 0 <= i < |ts| && ts[i].kind == IN && Derives(intern, 0, ts[..i], value) &&
      Derives(intern, 0, ts[i + 1..], body);
  }

  lemma LetGrouped(head: seq<Token>, x: seq<Token>, n: Token, y: seq<Token>, rest: seq<Token>)
    ensures head + x + [n] + y + rest == head + (x + ([n] + (y + rest)))
  {
  }

  // ----- Where the productions stop -----

  lemma {:induction false} ArgumentsStop(g: Gr.Grammar, f: Expr, s: State)
    ensures Stops(7, g.Arguments(f, s).s.Peek())
    decreases |s.rest|
  {
    if IsPrimary(s.Peek()) {
      var p := g.Primary(s);
      ArgumentsStop(g, Apply(f, p.e), p.s);
    }
  }

  lemma {:induction false} UnaryStops(g: Gr.Grammar, s: State)
    ensures Stops(6, g.UnaryLevel(s).s.Peek())
    decreases |s.rest|
  {
    if s.Peek() == PLUS || s.Peek() == MINUS {
      UnaryStops(g, s.Skip());
    } else {
      var p := g.Primary(s);
      ArgumentsStop(g, p.e, p.s);
    }
  }

  lemma {:induction false} FactorsStop(g: Gr.Grammar, l: Expr, s: State)
    requires Stops(6, s.Peek())
    ensures Stops(5, g.Factors(l, s).s.Peek())
    decreases |s.rest|
  {
    if s.Peek() == STAR || s.Peek() == SLASH {
      var p := g.UnaryLevel(s.Skip());
      UnaryStops(g, s.Skip());
      FactorsStop(g, Binary(if s.Peek() == STAR then Star else Slash, l, p.e), p.s);
    }
  }

  lemma FactorStops(g: Gr.Grammar, s: State)
    ensures Stops(5, g.Factor(s).s.Peek())
  {
    var p := g.UnaryLevel(s);
    UnaryStops(g, s);
    FactorsStop(g, p.e, p.s);
  }

  lemma {:induction false} TermsStop(g: Gr.Grammar, l: Expr, s: State)
    requires Stops(5, s.Peek())
    ensures Stops(4, g.Terms(l, s).s.Peek())
    decreases |s.rest|
  {
    if s.Peek() == PLUS || s.Peek() == MINUS {
      var p := g.Factor(s.Skip());
      FactorStops(g, s.Skip());
      TermsStop(g, Binary(if s.Peek() == PLUS then Plus else Minus, l, p.e), p.s);
    }
  }

  lemma TermStops(g: Gr.Grammar, s: State)
    ensures Stops(4, g.Term(s).s.Peek())
  {
    var p := g.Factor(s);
    FactorStops(g, s);
    TermsStop(g, p.e, p.s);
  }

  lemma {:induction false} ComparisonsStop(g: Gr.Grammar, l: Expr, s: State)
    requires Stops(4, s.Peek())
    ensures Stops(3, g.Comparisons(l, s).s.Peek())
    decreases |s.rest|
  {
    if s.Peek() == EQUALS {
      var p := g.Term(s.Accept());
      TermStops(g, s.Accept());
      ComparisonsStop(g, Binary(Equals, l, p.e), p.s);
    }
  }

  lemma ComparisonStops(g: Gr.Grammar, s: State)
    ensures Stops(0, g.Comparison(s).s.Peek())
  {
    var p := g.Term(s);
    TermStops(g, s);
    ComparisonsStop(g, p.e, p.s);
    SameStops(3, 0, g.Comparison(s).s.Peek());
  }

  lemma {:induction false} FunctionStops(g: Gr.Grammar, s: State)
    ensures Stops(0, g.Function(s).s.Peek())
    decreases |s.rest|, 0
  {
    if s.Peek() == FN {
      var (id, s1) := g.Name(s.Accept());
      FunctionIs(g, s);
      hide Grammar.Expression, Grammar.Function, Stops;
      ExpressionStops(g, s1.Expect(ARROW));
    } else {
      assert g.Function(s) == g.Comparison(s);
      hide Grammar.Function, Grammar.Comparison, Stops;
      ComparisonStops(g, s);
    }
  }

  lemma {:induction false} ConditionalStops(g: Gr.Grammar, s: State)
    ensures Stops(0, g.Conditional(s).s.Peek())
    decreases |s.rest|, 1
  {
    if s.Peek() == Kind.IF {
      var test := g.Before(THEN, s.Accept());
      var a := g.Before(ELSE, test.s);
      assert g.Conditional(s).s == g.Expression(a.s).s;
      hide Grammar.Expression, Grammar.Conditional, Stops, Grammar.Before;
      ExpressionStops(g, a.s);
    } else {
      assert g.Conditional(s) == g.Function(s);
      hide Grammar.Conditional, Grammar.Function, Stops;
      FunctionStops(g, s);
    }
  }

  lemma {:induction false} DefinitionStops(g: Gr.Grammar, s: State)
    ensures Stops(0, g.Definition(s).s.Peek())
    decreases |s.rest|, 2
  {
    if s.Peek() == LET {
      var (recursive, id, s1) := g.Header(s.Accept());
      var value := g.Before(IN, s1);
      assert g.Definition(s).s == g.Expression(value.s).s;
      hide Grammar.Expression, Grammar.Definition, Stops, Grammar.Before, Grammar.Header;
      ExpressionStops(g, value.s);
    } else {
      assert g.Definition(s) == g.Conditional(s);
      hide Grammar.Definition, Grammar.Conditional, Stops;
      ConditionalStops(g, s);
    }
  }

  /** After an expression comes a token with which it does not go on. */
  lemma {:induction false} ExpressionStops(g: Gr.Grammar, s: State)
    ensures Stops(0, g.Expression(s).s.Peek())
    decreases |s.rest|, 3
  {
    assert g.Expression(s) == g.Definition(s);
    hide Grammar.Definition, Grammar.Expression, Stops;
    DefinitionStops(g, s);
  }

  // ----- Exactly -----

  /** The first `n` tokens stand for the expression, and it does not go on after them. */
  ghost predicate DerivesFirst(g: Gr.Grammar, ts: seq<Token>, n: nat, e: Expr) {
    n <= |ts| && Derives(g.intern, 0, ts[..n], e) && Stops(0, At(ts[n..], 0).Peek())
  }

  /** The parser reports no error exactly if the tokens begin with some that stand for an expression,
      which does not go on after them, and then it reads that expression, and just those tokens. */
  lemma ExpressionExactly(g: Gr.Grammar, ts: seq<Token>, n: nat, e: Expr)
    ensures var p := g.Expression(At(ts, 0));
            DerivesFirst(g, ts, n, e) <==> p.s.errors == 0 && p.e == e && n <= |ts| && p.s == At(ts[n..], 0)
  {
    hide Derives, Stops, Grammar.Expression;
    var s := At(ts, 0);
    var p := g.Expression(s);
    if DerivesFirst(g, ts, n, e) {
      assert ts[..n] + ts[n..] == ts;
      ExpressionIsParsed(g, ts[..n], e, ts[n..], 0);
    }
    if p.s.errors == 0 && p.e == e && n <= |ts| && p.s == At(ts[n..], 0) {
      ExpressionSound(g, s);
      ExpressionStops(g, s);
      assert Taken(s, p.s) == ts[..n];
    }
  }

  /** An error is reported exactly if no beginning of the tokens stands for an expression that does not
      go on after it. */
  lemma ErrorsExactly(g: Gr.Grammar, ts: seq<Token>)
    ensures g.Expression(At(ts, 0)).s.errors > 0 <==> forall n: nat, e :: !DerivesFirst(g, ts, n, e)
  {
    hide Derives, Stops, Grammar.Expression, DerivesFirst;
    var s := At(ts, 0);
    var p := g.Expression(s);
    ExpressionSound(g, s);
    if p.s.errors == 0 {
      var n := |ts| - |p.s.rest|;
      assert p.s == At(ts[n..], 0);
      ExpressionExactly(g, ts, n, p.e);
    } else {
      forall n: nat, e ensures !DerivesFirst(g, ts, n, e) { ExpressionExactly(g, ts, n, e); }
    }
  }
}
