/** The types of the smallest program for each construct: just those that the construct is for. */
module Combinators {
  import opened Syntax
  import opened TypeCells
  import opened Typing

  function Fn(x: Symbol, body: Expr): Expr { Lambda(x, body) }

  function Var(x: Symbol): Expr { Identifier(x) }

  /** A type is one of the instances of a -> a. */
  predicate SameToSame(t: Type) { t.TFunc? && t.from == t.to }

  lemma UsableNames(x: Symbol, y: Symbol, a: Type, b: Type, g: Context, t: Type)
    requires x != y
    ensures Usable(Named(x, iset{a}, g), x, t) <==> t == a
    ensures Usable(Named(y, iset{b}, Named(x, iset{a}, g)), x, t) <==> t == a
    ensures Usable(Named(y, iset{b}, Named(x, iset{a}, g)), y, t) <==> t == b
  {
    var one := Named(x, iset{a}, g);
    assert Usable(one, x, t) <==> t in iset{a};
    assert Usable(Named(y, iset{b}, one), x, t) <==> Usable(one, x, t);
  }

  /** fn x => x is of all types a -> a. */
  lemma IdentityTypes(g: Context, x: Symbol, t: Type)
    ensures HasType(g, Fn(x, Var(x)), t) <==> SameToSame(t)
  {
    if t.TFunc? { assert HasType(Named(x, iset{t.from}, g), Var(x), t.to) <==> t.to in iset{t.from}; }
  }

  /** fn f => fn x => f x is of all types (a -> b) -> a -> b. */
  lemma CallTypes(g: Context, f: Symbol, x: Symbol, t: Type)
    requires f != x
    ensures HasType(g, Fn(f, Fn(x, Apply(Var(f), Var(x)))), t)
            <==> t.TFunc? && t.to.TFunc? && t.from == TFunc(t.to.from, t.to.to)
  {
    if t.TFunc? && t.to.TFunc? {
      var h := Named(x, iset{t.to.from}, Named(f, iset{t.from}, g));
      forall u ensures HasType(h, Var(f), u) <==> u == t.from { UsableNames(f, x, t.from, t.to.from, g, u); }
      forall u ensures HasType(h, Var(x), u) <==> u == t.to.from { UsableNames(f, x, t.from, t.to.from, g, u); }
      assert HasType(h, Apply(Var(f), Var(x)), t.to.to)
             <==> exists from :: HasType(h, Var(f), TFunc(from, t.to.to)) && HasType(h, Var(x), from);
      if t.from == TFunc(t.to.from, t.to.to) {
        assert HasType(h, Var(f), TFunc(t.to.from, t.to.to)) && HasType(h, Var(x), t.to.from);
      }
    }
  }

  lemma TwoParameters(g: Context, x: Symbol, y: Symbol, e: Expr, t: Type)
    ensures HasType(g, Fn(x, Fn(y, e)), t)
            <==> t.TFunc? && t.to.TFunc? &&
                 HasType(Named(y, iset{t.to.from}, Named(x, iset{t.from}, g)), e, t.to.to)
  {
  }

  /** fn x => fn y => (x op y) is of type int -> int -> int, and for `=` of all types a -> a -> bool. */
  lemma OperatorTypes(g: Context, x: Symbol, y: Symbol, op: BinaryOp, t: Type)
    requires x != y
    ensures HasType(g, Fn(x, Fn(y, Binary(op, Var(x), Var(y)))), t)
            <==> if op == Equals then t.TFunc? && t.to == TFunc(t.from, TBool) else t == TFunc(TInt, TFunc(TInt, TInt))
  {
    TwoParameters(g, x, y, Binary(op, Var(x), Var(y)), t);
    if t.TFunc? && t.to.TFunc? {
      var h := Named(y, iset{t.to.from}, Named(x, iset{t.from}, g));
      forall u ensures HasType(h, Var(x), u) <==> u == t.from { UsableNames(x, y, t.from, t.to.from, g, u); }
      forall u ensures HasType(h, Var(y), u) <==> u == t.to.from { UsableNames(x, y, t.from, t.to.from, g, u); }
      if op == Equals {
        assert HasType(h, Binary(op, Var(x), Var(y)), t.to.to)
               <==> t.to.to == TBool && exists a :: HasType(h, Var(x), a) && HasType(h, Var(y), a);
        if t.from == t.to.from { assert HasType(h, Var(x), t.from) && HasType(h, Var(y), t.from); }
      }
    }
  }

  /** fn x => -x is of all types a -> a: the checker does not ask for a number. */
  lemma NegationTypes(g: Context, x: Symbol, op: UnaryOp, t: Type)
    ensures HasType(g, Fn(x, Unary(op, Var(x))), t) <==> SameToSame(t)
  {
    if t.TFunc? { assert HasType(Named(x, iset{t.from}, g), Var(x), t.to) <==> t.to in iset{t.from}; }
  }

  lemma TwoNames(g: Context, x: Symbol, y: Symbol, a: Type, b: Type, t: Type)
    requires x != y
    ensures HasType(Named(y, iset{b}, Named(x, iset{a}, g)), Var(x), t) <==> t == a
    ensures HasType(Named(y, iset{b}, Named(x, iset{a}, g)), Var(y), t) <==> t == b
  {
    UsableNames(x, y, a, b, g, t);
  }

  /** fn c => fn x => if c then x else x is of all types bool -> a -> a. */
  lemma ChoiceTypes(g: Context, c: Symbol, x: Symbol, t: Type)
    requires c != x
    ensures HasType(g, Fn(c, Fn(x, If(Var(c), Var(x), Var(x)))), t) <==> t.TFunc? && t.from == TBool && SameToSame(t.to)
  {
    TwoParameters(g, c, x, If(Var(c), Var(x), Var(x)), t);
    if t.TFunc? && t.to.TFunc? {
      TwoNames(g, c, x, t.from, t.to.from, TBool);
      TwoNames(g, c, x, t.from, t.to.from, t.to.to);
      IfTypes(Named(x, iset{t.to.from}, Named(c, iset{t.from}, g)), Var(c), Var(x), Var(x), t.to.to);
    }
  }

  /** fn c => fn x => if c then x else 0 is of type bool -> int -> int. */
  lemma BranchTypes(g: Context, c: Symbol, x: Symbol, t: Type)
    requires c != x
    ensures HasType(g, Fn(c, Fn(x, If(Var(c), Var(x), Literal(0)))), t) <==> t == TFunc(TBool, TFunc(TInt, TInt))
  {
    TwoParameters(g, c, x, If(Var(c), Var(x), Literal(0)), t);
    if t.TFunc? && t.to.TFunc? {
      TwoNames(g, c, x, t.from, t.to.from, TBool);
      TwoNames(g, c, x, t.from, t.to.from, t.to.to);
      IfTypes(Named(x, iset{t.to.from}, Named(c, iset{t.from}, g)), Var(c), Var(x), Literal(0), t.to.to);
    }
  }

  lemma IfTypes(h: Context, c: Expr, a: Expr, b: Expr, t: Type)
    ensures HasType(h, If(c, a, b), t) <==> HasType(h, c, TBool) && HasType(h, a, t) && HasType(h, b, t)
  {
  }

  lemma TupleTypes(h: Context, a: Expr, b: Expr, t: Type)
    ensures HasType(h, Expr.Tuple(a, TupleFinal(b), 2), t)
            <==> t.TTuple? && t.rest.TFinal? && HasType(h, a, t.first) && HasType(h, b, t.rest.only)
  {
    if t.TTuple? { FinalTypes(h, b, t.rest); }
  }

  lemma FinalTypes(h: Context, b: Expr, t: Type)
    ensures HasType(h, TupleFinal(b), t) <==> t.TFinal? && HasType(h, b, t.only)
  {
  }

  /** fn x => fn y => (x, y) is of all types a -> b -> a * b. */
  lemma PairTypes(g: Context, x: Symbol, y: Symbol, t: Type)
    requires x != y
    ensures HasType(g, Fn(x, Fn(y, Expr.Tuple(Var(x), TupleFinal(Var(y)), 2))), t)
            <==> t.TFunc? && t.to.TFunc? && t.to.to == TTuple(t.from, TFinal(t.to.from))
  {
    TwoParameters(g, x, y, Expr.Tuple(Var(x), TupleFinal(Var(y)), 2), t);
    if t.TFunc? && t.to.TFunc? {
      var u := t.to.to;
      TupleTypes(Named(y, iset{t.to.from}, Named(x, iset{t.from}, g)), Var(x), Var(y), u);
      if u.TTuple? && u.rest.TFinal? {
        TwoNames(g, x, y, t.from, t.to.from, u.first);
        TwoNames(g, x, y, t.from, t.to.from, u.rest.only);
      }
    }
  }

  /** let i = fn x => x in i i is of all types a -> a: the two uses of i have different types. */
  lemma PolymorphicTypes(g: Context, i: Symbol, x: Symbol, t: Type)
    ensures HasType(g, Let(i, Fn(x, Var(x)), Apply(Var(i), Var(i))), t) <==> SameToSame(t)
  {
    var types := Types(g, Fn(x, Var(x)));
    forall u ensures u in types <==> SameToSame(u) { IdentityTypes(g, x, u); }
    var h := Named(i, types, g);
    forall u ensures HasType(h, Var(i), u) <==> SameToSame(u) {}
    assert TFunc(TInt, TInt) in types;
    assert HasType(h, Apply(Var(i), Var(i)), t)
           <==> exists from :: HasType(h, Var(i), TFunc(from, t)) && HasType(h, Var(i), from);
    if SameToSame(t) { assert HasType(h, Var(i), TFunc(t, t)) && HasType(h, Var(i), t); }
  }

  /** A parameter has one type: no function is applied to itself. */
  lemma NoSelfApplication(g: Context, x: Symbol, t: Type)
    ensures !HasType(g, Fn(x, Apply(Var(x), Var(x))), t)
  {
    if t.TFunc? {
      var h := Named(x, iset{t.from}, g);
      forall u ensures HasType(h, Var(x), u) <==> u == t.from {}
      assert HasType(h, Apply(Var(x), Var(x)), t.to)
             <==> exists from :: HasType(h, Var(x), TFunc(from, t.to)) && HasType(h, Var(x), from);
    }
  }

  /** let rec f = fn x => f x in f is of all function types. */
  lemma RecursiveFunctionTypes(g: Context, f: Symbol, x: Symbol, t: Type)
    requires f != x
    ensures HasType(g, LetRec(f, Fn(x, Apply(Var(f), Var(x))), Var(f)), t) <==> t.TFunc?
  {
    var value := Fn(x, Apply(Var(f), Var(x)));
    var types := RecursiveTypes(g, f, value);
    forall u ensures u in types <==> u.TFunc? { LoopTypes(g, f, x, u); }
    assert TFunc(TInt, TInt) in types;
    assert HasType(Named(f, types, g), Var(f), t) <==> t in types;
  }

  lemma LoopTypes(g: Context, f: Symbol, x: Symbol, u: Type)
    requires f != x
    ensures HasType(Named(f, iset{u}, g), Fn(x, Apply(Var(f), Var(x))), u) <==> u.TFunc?
  {
    if u.TFunc? {
      var h := Named(x, iset{u.from}, Named(f, iset{u}, g));
      UsableNames(f, x, u, u.from, g, u);
      UsableNames(f, x, u, u.from, g, u.from);
      assert HasType(h, Var(f), TFunc(u.from, u.to)) && HasType(h, Var(x), u.from);
      assert HasType(h, Apply(Var(f), Var(x)), u.to);
    }
  }
}
