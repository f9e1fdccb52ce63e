/** Well-typed programs do not get stuck, and what they compute has their type. */
module TypeSafety {
  import opened Wrappers
  import opened Syntax
  import opened Semantics
  import opened TypeCells
  import opened Typing

  ghost predicate SafeOutcome(o: Outcome, t: Type) {
    match o
    case Val(v) => ValueHas(v, t)
    case Timeout => true
    case Stuck => false
  }

  ghost predicate SafeOutcomes(o: Outcomes, t: Type) {
    match o
    case Vals(vs) => |vs| > 0 && MembersHave(TupleV(vs), 0, t)
    case TimeoutS => true
    case StuckS => false
  }

  /** The type of a value shows what it is. */
  lemma Canonical(v: Value, t: Type)
    requires ValueHas(v, t)
    ensures (v.IntV? <==> t == TInt) && (v.BoolV? <==> t == TBool) && (v.ClosureV? <==> t.TFunc?)
    ensures v.TupleV? <==> t.TTuple? || t.TFinal?
  {
    if v.TupleV? { assert MembersHave(v, 0, t); }
  }

  /** Type safety: an expression of strict type `t`, in an environment whose values have the types the
      context says, never gets stuck, and a value it evaluates to has type `t`. */
  lemma {:induction false} TypesAreSafe(e: Expr, env: Env, fuel: nat, g: Context, t: Type)
    requires HasStrictType(g, e, t) && EnvHas(env, g) && Supported(e)
    ensures SafeOutcome(Eval(e, env, fuel), t)
    decreases fuel, e, 1
  {
    match e
    case Identifier(id) => LookupHas(env, g, id, t);
    case Lambda(param, body) => ClosureHas(INVALID_SYMBOL, param, body, env, g, t);
    case Apply(f, a) => SafeApply(e, env, fuel, g, t);
    case Let(id, value, body) =>
      forall a | a in StrictTypes(g, value) ensures SafeOutcome(Eval(value, env, fuel), a) {
        TypesAreSafe(value, env, fuel, g, a);
      }
      var v := Eval(value, env, fuel);
      if v.Val? { TypesAreSafe(body, Bind(id, v.v, env), fuel, Named(id, StrictTypes(g, value), g), t); }
    case LetRec(id, value, body) =>
      var c := ClosureV(id, value.param, value.body, env);
      forall a | a in StrictRecursiveTypes(g, id, value) ensures ValueHas(c, a) {
        ClosureHas(id, value.param, value.body, env, g, a);
      }
      TypesAreSafe(body, Bind(id, c, env), fuel, Named(id, StrictRecursiveTypes(g, id, value), g), t);
    case If(test, a, b) =>
      TypesAreSafe(test, env, fuel, g, TBool);
      if Eval(test, env, fuel).Val? { Canonical(Eval(test, env, fuel).v, TBool); }
      TypesAreSafe(a, env, fuel, g, t);
      TypesAreSafe(b, env, fuel, g, t);
    case Binary(_, _, _) => SafeBinary(e, env, fuel, g, t);
    case Unary(_, a) =>
      TypesAreSafe(a, env, fuel, g, TInt);
      if Eval(a, env, fuel).Val? { Canonical(Eval(a, env, fuel).v, TInt); }
    case Tuple(_, _, n) => MembersAreSafe(e, n, env, fuel, g, t);
    case _ =>
  }

  lemma {:induction false} MembersAreSafe(e: Expr, n: nat, env: Env, fuel: nat, g: Context, t: Type)
    requires HasStrictType(g, e, t) && EnvHas(env, g) && Chain(e, n) && forall m :: m in MembersOf(e, n) ==>
               Supported(m)
    ensures SafeOutcomes(EvalMembers(e, env, fuel), t)
    decreases fuel, e, 0
  {
    assert MembersOf(e, n)[0] == e.first && e.first in MembersOf(e, n);
    if e.TupleFinal? {
      TypesAreSafe(e.first, env, fuel, g, t.only);
    } else {
      TypesAreSafe(e.first, env, fuel, g, t.first);
      forall m | m in MembersOf(e.rest, n - 1) ensures Supported(m) { assert m in MembersOf(e, n); }
      MembersAreSafe(e.rest, n - 1, env, fuel, g, t.rest);
      var o, os := Eval(e.first, env, fuel), EvalMembers(e.rest, env, fuel);
      if o.Val? && os.Vals? { MembersCons(o.v, os.vs, t); }
    }
  }

  lemma {:induction false} SafeApply(e: Expr, env: Env, fuel: nat, g: Context, t: Type)
    requires e.Apply? && HasStrictType(g, e, t) && EnvHas(env, g) && Supported(e)
    ensures SafeOutcome(Eval(e, env, fuel), t)
    decreases fuel, e, 0
  {
    var from :| HasStrictType(g, e.function_, TFunc(from, t)) && HasStrictType(g, e.argument, from);
    TypesAreSafe(e.function_, env, fuel, g, TFunc(from, t));
    TypesAreSafe(e.argument, env, fuel, g, from);
    var f, a := Eval(e.function_, env, fuel), Eval(e.argument, env, fuel);
    if f.Val? { Canonical(f.v, TFunc(from, t)); }
    if f.Val? && a.Val? && fuel > 0 {
      var h := CalleeContext(f.v, a.v, from, t);
      TypesAreSafe(f.v.body, CallEnv(f.v, a.v), fuel - 1, h, t);
    }
  }

  lemma {:induction false} SafeBinary(e: Expr, env: Env, fuel: nat, g: Context, t: Type)
    requires e.Binary? && HasStrictType(g, e, t) && EnvHas(env, g) && Supported(e)
    ensures SafeOutcome(Eval(e, env, fuel), t)
    decreases fuel, e, 0
  {
    var l, r := e.left, e.right;
    var a := TInt;
    if e.bop == Equals {
      a :| (a == TInt || a == TBool) && HasStrictType(g, l, a) && HasStrictType(g, r, a);
    }
    TypesAreSafe(l, env, fuel, g, a);
    TypesAreSafe(r, env, fuel, g, a);
    var lv, rv := Eval(l, env, fuel), Eval(r, env, fuel);
    if lv.Val? && rv.Val? {
      Canonical(lv.v, a);
      Canonical(rv.v, a);
    }
  }

  lemma ClosureHas(self: Symbol, param: Symbol, body: Expr, env: Env, g: Context, t: Type)
    requires EnvHas(env, g) && Supported(body)
    requires HasStrictType(if self != INVALID_SYMBOL then Named(self, iset{t}, g) else g, Lambda(param, body), t)
    ensures ValueHas(ClosureV(self, param, body, env), t)
  {
  }

  /** The body of a function value has its result type in the environment of a call. */
  lemma CalleeContext(f: Value, a: Value, from: Type, to: Type) returns (h: Context)
    requires ValueHas(f, TFunc(from, to)) && ValueHas(a, from)
    ensures f.ClosureV? && Supported(f.body) && EnvHas(CallEnv(f, a), h) && HasStrictType(h, f.body, to)
  {
    var t := TFunc(from, to);
    assert ValueHas(f, TFunc(from, to)) && f.ClosureV? by { Canonical(f, TFunc(from, to)); }
    var g :|
      && EnvHas(f.env, g)
      && HasStrictType(Named(f.param, iset{from}, if f.self != INVALID_SYMBOL then Named(f.self, iset{t}, g) else g),
                       f.body, to);
    h := Named(f.param, iset{from}, if f.self != INVALID_SYMBOL then Named(f.self, iset{t}, g) else g);
  }

  lemma {:induction false} MembersCons(v: Value, vs: seq<Value>, t: Type)
    requires |vs| > 0 && t.TTuple? && ValueHas(v, t.first) && MembersHave(TupleV(vs), 0, t.rest)
    ensures MembersHave(TupleV([v] + vs), 0, t)
  {
    MembersShift(v, vs, 0, t.rest);
  }

  lemma {:induction false} MembersShift(v: Value, vs: seq<Value>, k: nat, t: Type)
    requires k <= |vs| && MembersHave(TupleV(vs), k, t)
    ensures MembersHave(TupleV([v] + vs), k + 1, t)
    decreases |vs| - k
  {
    assert k < |vs| && ([v] + vs)[k + 1] == vs[k];
    if k + 1 < |vs| { MembersShift(v, vs, k + 1, t.rest); }
  }

  // ----- Whole programs -----

  function NamesOf(g: Context): set<Symbol> {
    if g.NoNames? then {} else {g.id} + NamesOf(g.rest)
  }

  lemma {:induction false} UsableIsName(g: Context, id: Symbol, t: Type)
    requires Usable(g, id, t)
    ensures id in NamesOf(g)
  {
    if g.id != id { UsableIsName(g.rest, id, t); }
  }

  /** A well-typed expression uses only names in scope. */
  lemma {:induction false} TypedIsClosed(g: Context, e: Expr, t: Type)
    requires HasType(g, e, t)
    ensures FreeVars(e) <= NamesOf(g)
    decreases e
  {
    match e
    case Identifier(id) => UsableIsName(g, id, t);
    case Lambda(param, body) => TypedIsClosed(Named(param, iset{t.from}, g), body, t.to);
    case Apply(f, a) =>
      var from :| HasType(g, f, TFunc(from, t)) && HasType(g, a, from);
      TypedIsClosed(g, f, TFunc(from, t));
      TypedIsClosed(g, a, from);
    case Let(id, value, body) =>
      var a :| a in Types(g, value);
      TypedIsClosed(g, value, a);
      TypedIsClosed(Named(id, Types(g, value), g), body, t);
    case LetRec(id, value, body) =>
      var a :| a in RecursiveTypes(g, id, value);
      TypedIsClosed(Named(id, iset{a}, g), value, a);
      TypedIsClosed(Named(id, RecursiveTypes(g, id, value), g), body, t);
    case If(test, a, b) =>
      TypedIsClosed(g, test, TBool);
      TypedIsClosed(g, a, t);
      TypedIsClosed(g, b, t);
    case Binary(op, l, r) =>
      if op == Equals {
        var a :| HasType(g, l, a) && HasType(g, r, a);
        TypedIsClosed(g, l, a);
        TypedIsClosed(g, r, a);
      } else {
        TypedIsClosed(g, l, TInt);
        TypedIsClosed(g, r, TInt);
      }
    case Unary(_, a) => TypedIsClosed(g, a, t);
    case Tuple(first, rest, _) =>
      TypedIsClosed(g, first, t.first);
      TypedIsClosed(g, rest, t.rest);
    case TupleFinal(first) => TypedIsClosed(g, first, t.only);
    case _ =>
  }

  // ----- What the checker lets through -----

  /** Negating an expression of any type is accepted, and gets stuck exactly if it is not a number. */
  lemma NegationExact(a: Expr, env: Env, fuel: nat, g: Context, t: Type)
    requires HasStrictType(g, a, t) && EnvHas(env, g) && Supported(a) && Eval(a, env, fuel).Val?
    ensures HasType(g, Unary(UnaryMinus, a), t)
    ensures Eval(Unary(UnaryMinus, a), env, fuel).Stuck? <==> t != TInt
  {
    StrictIsTyped(g, a, t);
    TypesAreSafe(a, env, fuel, g, t);
    Canonical(Eval(a, env, fuel).v, t);
  }

  /** Comparing expressions of any one type is accepted, and gets stuck exactly if they are
      functions or tuples. */
  lemma EqualityExact(a: Expr, b: Expr, env: Env, fuel: nat, g: Context, t: Type)
    requires HasStrictType(g, a, t) && HasStrictType(g, b, t) && EnvHas(env, g) && Supported(a) && Supported(b)
    requires Eval(a, env, fuel).Val? && Eval(b, env, fuel).Val?
    ensures HasType(g, Binary(Equals, a, b), TBool)
    ensures Eval(Binary(Equals, a, b), env, fuel).Stuck? <==> t.TFunc? || t.TTuple? || t.TFinal?
  {
    StrictIsTyped(g, a, t);
    StrictIsTyped(g, b, t);
    TypesAreSafe(a, env, fuel, g, t);
    TypesAreSafe(b, env, fuel, g, t);
    Canonical(Eval(a, env, fuel).v, t);
    Canonical(Eval(b, env, fuel).v, t);
  }
}
