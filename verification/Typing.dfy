/** Which types an expression has, as rules, and that well-typed programs do not get stuck. */
module Typing {
  import opened Wrappers
  import opened Syntax
  import opened Semantics
  import opened TypeCells

  /** The types each name in scope may be used at. */
  datatype Context = NoNames | Named(id: Symbol, types: iset<Type>, rest: Context)

  ghost predicate Usable(g: Context, id: Symbol, t: Type) {
    match g
    case NoNames => false
    case Named(x, types, rest) => if x == id then t in types else Usable(rest, id, t)
  }

  /** The typing rules of the checker. A name bound by `let` can be used at every type its
      definition has; inside its own definition a recursive name has one type. */
  ghost predicate HasType(g: Context, e: Expr, t: Type)
    decreases e, 0
  {
    match e
    case Literal(_) => t == TInt
    case True => t == TBool
    case False => t == TBool
    case Identifier(id) => Usable(g, id, t)
    case Lambda(param, body) => t.TFunc? && HasType(Named(param, iset{t.from}, g), body, t.to)
    case Apply(f, a) => exists from :: HasType(g, f, TFunc(from, t)) && HasType(g, a, from)
    case Let(id, value, body) =>
      && (exists a :: a in Types(g, value))
      && HasType(Named(id, Types(g, value), g), body, t)
    case LetRec(id, value, body) =>
      && (exists a :: a in RecursiveTypes(g, id, value))
      && HasType(Named(id, RecursiveTypes(g, id, value), g), body, t)
    case If(test, a, b) => HasType(g, test, TBool) && HasType(g, a, t) && HasType(g, b, t)
    case Binary(op, l, r) =>
      if op == Equals then t == TBool && exists a :: HasType(g, l, a) && HasType(g, r, a)
      else t == TInt && HasType(g, l, TInt) && HasType(g, r, TInt)
    case Unary(_, a) => HasType(g, a, t)
    case Tuple(first, rest, _) => t.TTuple? && HasType(g, first, t.first) && HasType(g, rest, t.rest)
    case TupleFinal(first) => t.TFinal? && HasType(g, first, t.only)
    case Error => false
    case Invalid => false
  }

  ghost function Types(g: Context, e: Expr): iset<Type>
    decreases e, 1
  {
    iset t | HasType(g, e, t)
  }

  ghost function RecursiveTypes(g: Context, id: Symbol, e: Expr): iset<Type>
    decreases e, 1
  {
    iset t | HasType(Named(id, iset{t}, g), e, t)
  }

  /** A program that has a type. */
  ghost predicate Typable(e: Expr) {
    exists t :: HasType(NoNames, e, t)
  }

  lemma HasTypeTypable(e: Expr, t: Type)
    requires HasType(NoNames, e, t)
    ensures Typable(e)
  {
  }

  /** Every name can be used at more types. */
  ghost predicate Wider(g: Context, h: Context) {
    match g
    case NoNames => h == NoNames
    case Named(id, types, rest) => h.Named? && h.id == id && types <= h.types && Wider(rest, h.rest)
  }

  lemma {:induction false} WiderUsable(g: Context, h: Context, id: Symbol, t: Type)
    requires Wider(g, h) && Usable(g, id, t)
    ensures Usable(h, id, t)
  {
    if g.id != id { WiderUsable(g.rest, h.rest, id, t); }
  }

  lemma {:induction g} WiderSelf(g: Context)
    ensures Wider(g, g)
  {
  }

  /** An expression keeps its types when names can be used at more types. */
  lemma {:induction false} WiderHasType(g: Context, h: Context, e: Expr, t: Type)
    requires Wider(g, h) && HasType(g, e, t)
    ensures HasType(h, e, t)
    decreases e
  {
    match e
    case Identifier(id) => WiderUsable(g, h, id, t);
    case Lambda(param, body) => WiderHasType(Named(param, iset{t.from}, g), Named(param, iset{t.from}, h), body, t.to);
    case Apply(f, a) =>
      var from :| HasType(g, f, TFunc(from, t)) && HasType(g, a, from);
      WiderHasType(g, h, f, TFunc(from, t));
      WiderHasType(g, h, a, from);
    case Let(id, value, body) =>
      forall a | a in Types(g, value) ensures a in Types(h, value) { WiderHasType(g, h, value, a); }
      WiderHasType(Named(id, Types(g, value), g), Named(id, Types(h, value), h), body, t);
    case LetRec(id, value, body) =>
      forall a | a in RecursiveTypes(g, id, value) ensures a in RecursiveTypes(h, id, value) {
        WiderHasType(Named(id, iset{a}, g), Named(id, iset{a}, h), value, a);
      }
      WiderHasType(Named(id, RecursiveTypes(g, id, value), g), Named(id, RecursiveTypes(h, id, value), h), body, t);
    case If(test, a, b) =>
      WiderHasType(g, h, test, TBool);
      WiderHasType(g, h, a, t);
      WiderHasType(g, h, b, t);
    case Binary(op, l, r) =>
      if op == Equals {
        var a :| HasType(g, l, a) && HasType(g, r, a);
        WiderHasType(g, h, l, a);
        WiderHasType(g, h, r, a);
      } else {
        WiderHasType(g, h, l, TInt);
        WiderHasType(g, h, r, TInt);
      }
    case Unary(_, a) => WiderHasType(g, h, a, t);
    case Tuple(first, rest, _) =>
      WiderHasType(g, h, first, t.first);
      WiderHasType(g, h, rest, t.rest);
    case TupleFinal(first) => WiderHasType(g, h, first, t.only);
    case _ =>
  }

  // ----- What the machine can do -----

  /** The same rules, with two more demands that the checker does not make: negation is of numbers,
      and `=` compares numbers or truth values. */
  ghost predicate HasStrictType(g: Context, e: Expr, t: Type)
    decreases e, 0
  {
    match e
    case Literal(_) => t == TInt
    case True => t == TBool
    case False => t == TBool
    case Identifier(id) => Usable(g, id, t)
    case Lambda(param, body) => t.TFunc? && HasStrictType(Named(param, iset{t.from}, g), body, t.to)
    case Apply(f, a) => exists from :: HasStrictType(g, f, TFunc(from, t)) && HasStrictType(g, a, from)
    case Let(id, value, body) =>
      && (exists a :: a in StrictTypes(g, value))
      && HasStrictType(Named(id, StrictTypes(g, value), g), body, t)
    case LetRec(id, value, body) =>
      && (exists a :: a in StrictRecursiveTypes(g, id, value))
      && HasStrictType(Named(id, StrictRecursiveTypes(g, id, value), g), body, t)
    case If(test, a, b) => HasStrictType(g, test, TBool) && HasStrictType(g, a, t) && HasStrictType(g, b, t)
    case Binary(op, l, r) =>
      if op == Equals then t == TBool && exists a ::
        (a == TInt || a == TBool) && HasStrictType(g, l, a) && HasStrictType(g, r, a)
      else t == TInt && HasStrictType(g, l, TInt) && HasStrictType(g, r, TInt)
    case Unary(_, a) => t == TInt && HasStrictType(g, a, TInt)
    case Tuple(first, rest, _) => t.TTuple? && HasStrictType(g, first, t.first) && HasStrictType(g, rest, t.rest)
    case TupleFinal(first) => t.TFinal? && HasStrictType(g, first, t.only)
    case Error => false
    case Invalid => false
  }

  ghost function StrictTypes(g: Context, e: Expr): iset<Type>
    decreases e, 1
  {
    iset t | HasStrictType(g, e, t)
  }

  ghost function StrictRecursiveTypes(g: Context, id: Symbol, e: Expr): iset<Type>
    decreases e, 1
  {
    iset t | HasStrictType(Named(id, iset{t}, g), e, t)
  }

  /** What is strictly typed has the type for the checker. */
  lemma {:induction false} StrictIsTyped(g: Context, e: Expr, t: Type)
    requires HasStrictType(g, e, t)
    ensures HasType(g, e, t)
    decreases e
  {
    match e
    case Lambda(param, body) => StrictIsTyped(Named(param, iset{t.from}, g), body, t.to);
    case Apply(f, a) =>
      var from :| HasStrictType(g, f, TFunc(from, t)) && HasStrictType(g, a, from);
      StrictIsTyped(g, f, TFunc(from, t));
      StrictIsTyped(g, a, from);
    case Let(id, value, body) =>
      var types := StrictTypes(g, value);
      forall a | a in types ensures a in Types(g, value) { StrictIsTyped(g, value, a); }
      StrictIsTyped(Named(id, types, g), body, t);
      WiderSelf(g);
      WiderHasType(Named(id, types, g), Named(id, Types(g, value), g), body, t);
    case LetRec(id, value, body) =>
      var types := StrictRecursiveTypes(g, id, value);
      forall a | a in types
        ensures a in RecursiveTypes(g, id, value) { StrictIsTyped(Named(id, iset{a}, g), value, a); }
      StrictIsTyped(Named(id, types, g), body, t);
      WiderSelf(g);
      WiderHasType(Named(id, types, g), Named(id, RecursiveTypes(g, id, value), g), body, t);
    case If(test, a, b) =>
      StrictIsTyped(g, test, TBool);
      StrictIsTyped(g, a, t);
      StrictIsTyped(g, b, t);
    case Binary(op, l, r) =>
      var a := TInt;
      if op == Equals { a :| (a == TInt || a == TBool) && HasStrictType(g, l, a) && HasStrictType(g, r, a); }
      StrictIsTyped(g, l, a);
      StrictIsTyped(g, r, a);
    case Unary(_, a) => StrictIsTyped(g, a, TInt);
    case Tuple(first, rest, _) =>
      StrictIsTyped(g, first, t.first);
      StrictIsTyped(g, rest, t.rest);
    case TupleFinal(first) => StrictIsTyped(g, first, t.only);
    case _ =>
  }

  // ----- Seen from the form of the operands -----

  /** Every operand of a negation can only be a number, and one of those of every `=` can only be a
      number or a truth value, by its form. */
  predicate Sensible(e: Expr) {
    match e
    case Lambda(_, body) => Sensible(body)
    case Apply(f, a) => Sensible(f) && Sensible(a)
    case Let(_, value, body) => Sensible(value) && Sensible(body)
    case LetRec(_, value, body) => Sensible(value) && Sensible(body)
    case If(test, a, b) => Sensible(test) && Sensible(a) && Sensible(b)
    case Binary(op, l, r) =>
      Sensible(l) && Sensible(r) && (op == Equals ==> Arithmetic(l) || Arithmetic(r) || Logical(l) || Logical(r))
    case Unary(_, a) => Arithmetic(a) && Sensible(a)
    case Tuple(first, rest, _) => Sensible(first) && Sensible(rest)
    case TupleFinal(first) => Sensible(first)
    case _ => true
  }

  /** Expressions that by their form can only have type int. */
  predicate Arithmetic(e: Expr) {
    match e
    case Literal(_) => true
    case Binary(op, _, _) => op != Equals
    case Unary(_, a) => Arithmetic(a)
    case _ => false
  }

  /** Expressions that by their form can only have type bool. */
  predicate Logical(e: Expr) {
    e.True? || e.False? || (e.Binary? && e.bop == Equals)
  }

  lemma {:induction false} ArithmeticIsInt(g: Context, e: Expr, t: Type)
    requires Arithmetic(e) && HasType(g, e, t)
    ensures t == TInt
  {
    if e.Unary? { ArithmeticIsInt(g, e.arg, t); }
  }

  /** So for these every type is strict. */
  lemma {:induction false} SensibleIsStrict(g: Context, e: Expr, t: Type)
    requires HasType(g, e, t) && Sensible(e)
    ensures HasStrictType(g, e, t)
    decreases e
  {
    match e
    case Lambda(param, body) => SensibleIsStrict(Named(param, iset{t.from}, g), body, t.to);
    case Apply(f, a) =>
      var from :| HasType(g, f, TFunc(from, t)) && HasType(g, a, from);
      SensibleIsStrict(g, f, TFunc(from, t));
      SensibleIsStrict(g, a, from);
    case Let(id, value, body) =>
      forall a ensures a in Types(g, value) <==> a in StrictTypes(g, value) {
        if a in Types(g, value) { SensibleIsStrict(g, value, a); }
        if a in StrictTypes(g, value) { StrictIsTyped(g, value, a); }
      }
      assert Types(g, value) == StrictTypes(g, value);
      SensibleIsStrict(Named(id, Types(g, value), g), body, t);
    case LetRec(id, value, body) =>
      forall a ensures a in RecursiveTypes(g, id, value) <==> a in StrictRecursiveTypes(g, id, value) {
        if a in RecursiveTypes(g, id, value) { SensibleIsStrict(Named(id, iset{a}, g), value, a); }
        if a in StrictRecursiveTypes(g, id, value) { StrictIsTyped(Named(id, iset{a}, g), value, a); }
      }
      assert RecursiveTypes(g, id, value) == StrictRecursiveTypes(g, id, value);
      SensibleIsStrict(Named(id, RecursiveTypes(g, id, value), g), body, t);
    case If(test, a, b) =>
      SensibleIsStrict(g, test, TBool);
      SensibleIsStrict(g, a, t);
      SensibleIsStrict(g, b, t);
    case Binary(op, l, r) =>
      var a := TInt;
      if op == Equals { a := SensibleEquality(g, l, r); }
      SensibleIsStrict(g, l, a);
      SensibleIsStrict(g, r, a);
    case Unary(_, a) =>
      ArithmeticIsInt(g, a, t);
      SensibleIsStrict(g, a, TInt);
    case Tuple(first, rest, _) =>
      SensibleIsStrict(g, first, t.first);
      SensibleIsStrict(g, rest, t.rest);
    case TupleFinal(first) => SensibleIsStrict(g, first, t.only);
    case _ =>
  }

  lemma SensibleEquality(g: Context, l: Expr, r: Expr) returns (a: Type)
    requires (exists a :: HasType(g, l, a) && HasType(g, r, a)) &&
             (Arithmetic(l) || Arithmetic(r) || Logical(l) || Logical(r))
    ensures HasType(g, l, a) && HasType(g, r, a) && (a == TInt || a == TBool)
  {
    a :| HasType(g, l, a) && HasType(g, r, a);
    if Arithmetic(l) { ArithmeticIsInt(g, l, a); } else if Arithmetic(r) { ArithmeticIsInt(g, r, a); }
  }

  // ----- Well-typed values -----

  ghost predicate ValueHas(v: Value, t: Type)
    decreases v, 1, 0
  {
    match v
    case IntV(_) => t == TInt
    case BoolV(_) => t == TBool
    case TupleV(members) => MembersHave(v, 0, t)
    case ClosureV(self, param, body, env) =>
      && t.TFunc? && Supported(body)
      && exists g ::
           && EnvHas(env, g)
           && HasStrictType(Named(param, iset{t.from}, if self != INVALID_SYMBOL then Named(self, iset{t}, g) else g),
                            body, t.to)
  }

  /** The members of a tuple from the k-th on. */
  ghost predicate MembersHave(v: Value, k: nat, t: Type)
    requires v.TupleV? && k <= |v.members|
    decreases v, 0, |v.members| - k
  {
    if k == |v.members| then false
    else if k + 1 == |v.members| then t.TFinal? && ValueHas(v.members[k], t.only)
    else t.TTuple? && ValueHas(v.members[k], t.first) && MembersHave(v, k + 1, t.rest)
  }

  ghost predicate EnvHas(env: Env, g: Context)
    decreases env, 0, 0
  {
    match env
    case Empty => g == NoNames
    case Bind(id, value, rest) =>
      g.Named? && g.id == id && (forall t :: t in g.types ==> ValueHas(value, t)) && EnvHas(rest, g.rest)
  }

  lemma {:induction false} LookupHas(env: Env, g: Context, id: Symbol, t: Type)
    requires EnvHas(env, g) && Usable(g, id, t)
    ensures Lookup(env, id).Some? && ValueHas(Lookup(env, id).value, t)
  {
    if g.id != id { LookupHas(env.rest, g.rest, id, t); }
  }
}
