/** Where the checker stops coming back: at the first definition whose type it cannot generalise. */
module Definitions {
  import opened Wrappers
  import opened Syntax
  import opened TypeCells
  import opened Memos
  import opened Schemes
  import opened Inference
  import opened RecursiveDefinitions
  import opened Halting
  import opened Analysis

  /** A definition that the checker has come to: what is in scope, the store and the number of errors
      before its value is analysed and when its type is to be generalised, and the cell of the type. */
  datatype Definition = Definition(e: Expr, env: TypeEnvironment, ng: seq<Ref>, s0: Store, r0: seq<nat>, errors0: nat,
                                   s: Store, rank: seq<nat>, errors: nat, type_: Ref)

  ghost predicate Recorded(d: Definition) {
    Ranked(d.s, d.rank) && InStore(d.s, d.ng) && Cell(d.s, d.type_)
  }

  /** The type is the one that was found for the value of the definition. */
  ghost predicate Found(d: Definition) {
    Recorded(d) &&
    match d.e
    case Let(_, value, _) =>
      && Analyzed(d.s0, d.r0, d.s, d.rank, d.errors, d.env, d.ng, value, d.type_)
      && Exact(d.s0, d.r0, d.errors0, d.s, d.rank, d.errors, d.env, value, d.type_)
    case LetRec(id, value, _) =>
      && Defined(d.s0, d.r0, d.s, d.rank, d.errors, d.env, d.ng, d.e) && d.type_ == |d.s0|
      && RecExact(d.s0, d.r0, d.errors0, d.s, d.rank, d.errors, d.env, id, value, d.type_)
    case _ => false
  }

  /** The checker gets past a definition: wherever a variable of the enclosing parameters comes before
      another variable in its type, the other one comes before it in the parameters, and the variable
      of a recursive definition would not be redirected to itself. */
  ghost predicate Settles(v: Version, d: Definition) {
    v.AsMeant? || (
      && Recorded(d) && InOrder([], Variables(d.s, d.rank, d.type_), AllVariables(d.s, d.rank, d.ng))
      && !(d.e.LetRec? && IsUnbound(d.s[d.type_]) && NonGeneric(d.s, d.rank, d.type_, d.ng)))
  }

  /** The definitions in an expression, each after those in its value and before those in its body. */
  function DefinitionsOf(e: Expr): seq<Expr> {
    match e
    case Lambda(_, body) => DefinitionsOf(body)
    case Apply(f, a) => DefinitionsOf(f) + DefinitionsOf(a)
    case Let(_, value, body) => DefinitionsOf(value) + [e] + DefinitionsOf(body)
    case LetRec(_, value, body) => DefinitionsOf(value) + [e] + DefinitionsOf(body)
    case If(t, a, b) => DefinitionsOf(t) + DefinitionsOf(a) + DefinitionsOf(b)
    case Binary(_, l, r) => DefinitionsOf(l) + DefinitionsOf(r)
    case Unary(_, a) => DefinitionsOf(a)
    case Tuple(first, rest, _) => DefinitionsOf(first) + DefinitionsOf(rest)
    case TupleFinal(first) => DefinitionsOf(first)
    case _ => []
  }

  /** The definitions `es` are come to one after the other and added to the record, up to the first
      one that does not settle. */
  ghost predicate Comes(v: Version, es: seq<Expr>, old_: seq<Definition>, new_: seq<Definition>, halts: bool) {
    && old_ <= new_ && |new_| <= |old_| + |es| && (halts ==> |new_| == |old_| + |es|)
    && (forall i :: |old_| <= i < |new_| ==> new_[i].e == es[i - |old_|] && Found(new_[i]))
    && (forall i :: |old_| <= i < |new_| ==> (Settles(v, new_[i]) <==> halts || i < |new_| - 1))
    && (!halts ==> |new_| > |old_|)
  }

  lemma ComesNowhere(v: Version, a: seq<Definition>)
    ensures Comes(v, [], a, a, true)
  {
  }

  lemma ComesTo(v: Version, d: Definition, a: seq<Definition>)
    requires Found(d)
    ensures Comes(v, [d.e], a, a + [d], Settles(v, d))
  {
    hide Settles, Found;
  }

  /** After definitions that have all settled come others. */
  lemma ComesThen(v: Version, es: seq<Expr>, es': seq<Expr>, a: seq<Definition>, b: seq<Definition>, c: seq<Definition>,
                  halts: bool)
    requires Comes(v, es, a, b, true) && Comes(v, es', b, c, halts)
    ensures Comes(v, es + es', a, c, halts)
  {
    hide Settles, Found;
  }

  /** Those after one that does not settle are not come to. */
  lemma ComesNoFurther(v: Version, es: seq<Expr>, es': seq<Expr>, a: seq<Definition>, b: seq<Definition>)
    requires Comes(v, es, a, b, false)
    ensures Comes(v, es + es', a, b, false)
  {
    hide Settles, Found;
  }

  lemma ComesShort(v: Version, es: seq<Expr>, es': seq<Expr>, es'': seq<Expr>, a: seq<Definition>, b: seq<Definition>)
    requires Comes(v, es, a, b, false)
    ensures Comes(v, es + es' + es'', a, b, false)
  {
    hide Comes;
    ComesNoFurther(v, es, es', a, b);
    ComesNoFurther(v, es + es', es'', a, b);
  }

  lemma LetSettles(v: Version, d: Definition)
    requires Recorded(d) && d.e.Let?
    requires Analyzed(d.s0, d.r0, d.s, d.rank, d.errors, d.env, d.ng, d.e.value_, d.type_)
    requires Exact(d.s0, d.r0, d.errors0, d.s, d.rank, d.errors, d.env, d.e.value_, d.type_)
    ensures Found(d)
    ensures Settles(v, d) <==>
              v.AsMeant? || InOrder([], Variables(d.s, d.rank, d.type_), AllVariables(d.s, d.rank, d.ng))
  {
  }

  lemma DefinedFacts(s0: Store, r0: seq<nat>, s: Store, rank: seq<nat>, errors: nat, env: TypeEnvironment,
                     ng: seq<Ref>, e: Expr)
    requires Defined(s0, r0, s, rank, errors, env, ng, e)
    ensures Ranked(s, rank) && InStore(s, ng) && Cell(s, |s0|) && s[|s0|].kind == Variable
  {
  }

  lemma NoParameters(s: Store, rank: seq<nat>, t: Ref)
    requires Ranked(s, rank) && Cell(s, t)
    ensures !NonGeneric(s, rank, t, [])
  {
  }

  lemma LetRecFacts(d: Definition)
    requires Found(d) && d.e.LetRec?
    ensures Recorded(d) && Ranked(d.s, d.rank) && InStore(d.s, d.ng) && Cell(d.s, d.type_) && d.type_ == |d.s0|
    ensures d.s[d.type_].kind == Variable && Defined(d.s0, d.r0, d.s, d.rank, d.errors, d.env, d.ng, d.e)
    ensures RecExact(d.s0, d.r0, d.errors0, d.s, d.rank, d.errors, d.env, d.e.id, d.e.value_, d.type_)
  {
  }

  lemma LetRecSettles(v: Version, d: Definition)
    requires Recorded(d) && d.e.LetRec? && d.type_ == |d.s0|
    requires Defined(d.s0, d.r0, d.s, d.rank, d.errors, d.env, d.ng, d.e)
    requires RecExact(d.s0, d.r0, d.errors0, d.s, d.rank, d.errors, d.env, d.e.id, d.e.value_, d.type_)
    ensures Found(d)
    ensures Settles(v, d) <==>
              v.AsMeant? || (InOrder([], Variables(d.s, d.rank, d.type_), AllVariables(d.s, d.rank, d.ng)) &&
                             !(IsUnbound(d.s[d.type_]) && NonGeneric(d.s, d.rank, d.type_, d.ng)))
  {
  }

  /** The checker comes back exactly if every definition that it comes to settles. */
  lemma ComesBack(v: Version, es: seq<Expr>, a: seq<Definition>, b: seq<Definition>, halts: bool)
    requires Comes(v, es, a, b, halts)
    ensures halts <==> forall i :: |a| <= i < |b| ==> Settles(v, b[i])
  {
    hide Settles, Found;
    if !halts { assert !Settles(v, b[|b| - 1]); }
  }
}
