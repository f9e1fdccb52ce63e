/** Inference is sound for each kind of expression. */
module InferenceRules {
  import opened Syntax
  import opened TypeCells
  import opened Typing
  import opened Unification
  import opened Schemes
  import opened Copying
  import opened Memos
  import opened CopySteps
  import opened Inference

  // ----- Application -----

  lemma InferApply(s0: Store, r0: seq<nat>, s: Store, rank: seq<nat>, s': Store, rank': seq<nat>,
                   env: TypeEnvironment, ng: seq<Ref>, f: Expr, a: Expr, tf: Ref, ta: Ref, tr: Ref, fun: Ref)
    requires Ranked(s0, r0) && Ranked(s, rank) && Ranked(s', rank') && InStore(s0, ng)
    requires Inferred(s0, r0, s, rank, env, ng, f, tf) && Inferred(s0, r0, s, rank, env, ng, a, ta)
    requires Cell(s, tr) && Simple(s, rank, tr, Domain(s0, r0, ng)) && Cell(s, fun) &&
             Simple(s, rank, fun, Domain(s0, r0, ng))
    requires s[fun] == TypeExp(Func, ta, tr)
    requires Unified(s, rank, s', rank', fun, tf, Domain(s0, r0, ng), false)
    ensures Inferred(s0, r0, s', rank', env, ng, Apply(f, a), tr)
  {
    hide Ranked, Simple, Unified, Evolved, Domain;
    var d := Domain(s0, r0, ng);
    assert Unified(s, rank, s', rank', fun, tf, d, false);
    UnifiedEvolved(s0, r0, s, rank, s', rank', fun, tf, d);
    KeptType(s, rank, s', rank', fun, d);
    InferredLater(s0, r0, s, rank, s', rank', env, ng, f, tf);
    InferredLater(s0, r0, s, rank, s', rank', env, ng, a, ta);
    SimpleLater(s, rank, s', rank', tr, d);
    forall free: Ref -> Type
      ensures HasType(ContextOf(s', rank', free, env), Apply(f, a), Resolve(s', rank', free, tr)) {
      var g := ContextOf(s', rank', free, env);
      assert Resolve(s', rank', free, fun) == TFunc(Resolve(s', rank', free, ta), Resolve(s', rank', free, tr));
      assert HasType(g, f, TFunc(Resolve(s', rank', free, ta), Resolve(s', rank', free, tr)));
      assert HasType(g, a, Resolve(s', rank', free, ta));
    }
  }

  /** Types other than variables stay as they are. */
  lemma KeptType(s: Store, rank: seq<nat>, s': Store, rank': seq<nat>, r: Ref, d: iset<Ref>)
    requires Ranked(s', rank') && Evolved(s, s', rank', d) && Cell(s, r) && s[r].kind != Variable
    ensures Cell(s', r) && s'[r] == s[r]
  {
  }

  // ----- Parameters -----

  /** With a new parameter in scope. */
  lemma EnterParameter(s0: Store, r0: seq<nat>, env: TypeEnvironment, ng: seq<Ref>, id: Symbol)
    requires Ranked(s0, r0) && Scope(s0, r0, env, ng)
    ensures var s, rank := s0 + [VARIABLE], r0 + [1];
            && Ranked(s, rank) && Appended(s0, r0, s, rank)
            && Scope(s, rank, BindType(id, |s0|, env), [|s0|] + ng)
            && Cell(s, |s0|) && Simple(s, rank, |s0|, Domain(s, rank, [|s0|] + ng))
            && Domain(s, rank, [|s0|] + ng) <= Domain(s0, r0, ng)
  {
    var s, rank, p, ng' := s0 + [VARIABLE], r0 + [1], |s0|, [|s0|] + ng;
    AddRanked(s0, r0, VARIABLE, 1);
    ParameterAlone(s, rank, p);
    ParametersMono(s0, r0, s, rank, ng, p);
    CellsLater(s0, s, env);
    ParametersAdded(s0, r0, s, rank, env, ng, p);
    ParametersDomain(s0, r0, s, rank, ng);
    hide Ranked, Within, Mono, Domain;
    assert ng'[0] == p;
    assert Covered(s, rank, p, ng') && Simple(s, rank, p, Domain(s, rank, ng'));
  }

  lemma ParameterAlone(s: Store, rank: seq<nat>, p: Ref)
    requires Ranked(s, rank) && Cell(s, p) && s[p] == VARIABLE
    ensures Within(s, rank, p, p) && Mono(s, rank, p) && forall v :: Cell(s, v) && Within(s, rank, v, p) ==> v == p
    ensures forall ng: seq<Ref> :: InStore(s, ng) && |ng| > 0 && ng[0] == p ==>
              NonGeneric(s, rank, p, ng) && p in Domain(s, rank, ng)
  {
    forall v | Cell(s, v) && Within(s, rank, v, p) ensures v == p { NothingInside(s, rank, p, v); }
  }

  lemma ParametersMono(s0: Store, r0: seq<nat>, s: Store, rank: seq<nat>, ng: seq<Ref>, p: Ref)
    requires Ranked(s0, r0) && Ranked(s, rank) && Appended(s0, r0, s, rank) && InStore(s0, ng) && Cell(s, p) &&
             Mono(s, rank, p)
    requires forall k :: 0 <= k < |ng| ==> Mono(s0, r0, ng[k])
    ensures InStore(s, [p] + ng) && forall k :: 0 <= k < |[p] + ng| ==> Mono(s, rank, ([p] + ng)[k])
  {
    hide Ranked, Mono, Appended, InStore;
    StoreGrows(s0, r0, s, rank, ng, p);
    var all := [p] + ng;
    forall k | 0 <= k < |all| ensures Cell(s, all[k]) && Mono(s, rank, all[k]) {
      if k == 0 {
        assert all[0] == p;
      } else {
        assert all[k] == ng[k - 1];
        StillMono(s0, r0, s, rank, ng[k - 1]);
      }
    }
  }

  lemma StoreGrows(s0: Store, r0: seq<nat>, s: Store, rank: seq<nat>, ng: seq<Ref>, p: Ref)
    requires Ranked(s0, r0) && Ranked(s, rank) && Appended(s0, r0, s, rank) && InStore(s0, ng) && Cell(s, p)
    ensures InStore(s, [p] + ng) && forall k :: 0 <= k < |ng| ==> Cell(s0, ng[k])
  {
  }

  lemma StillMono(s0: Store, r0: seq<nat>, s: Store, rank: seq<nat>, c: Ref)
    requires Ranked(s0, r0) && Ranked(s, rank) && Appended(s0, r0, s, rank) && Cell(s0, c) && Mono(s0, r0, c)
    ensures Cell(s, c) && Mono(s, rank, c)
  {
    AppendedSame(s0, r0, s, rank, c);
  }

  lemma ParametersDomain(s0: Store, r0: seq<nat>, s: Store, rank: seq<nat>, ng: seq<Ref>)
    requires Ranked(s0, r0) && Ranked(s, rank) && Appended(s0, r0, s, rank) && InStore(s0, ng) && |s| == |s0| + 1
    requires InStore(s, [|s0|] + ng) && forall v :: Cell(s, v) && Within(s, rank, v, |s0|) ==> v == |s0|
    ensures Domain(s, rank, [|s0|] + ng) <= Domain(s0, r0, ng)
  {
    var ng' := [|s0|] + ng;
    forall v | v in Domain(s, rank, ng') && v < |s0| ensures v in Domain(s0, r0, ng) {
      var k :| 0 <= k < |ng'| && Within(s, rank, v, ng'[k]);
      assert k > 0 && ng'[k] == ng[k - 1];
      AppendedSame(s0, r0, s, rank, ng[k - 1]);
    }
  }

  /** An environment stays covered when cells and parameters are added. */
  lemma {:induction false} ParametersAdded(s0: Store, r0: seq<nat>, s: Store, rank: seq<nat>, env: TypeEnvironment,
                                           ng: seq<Ref>, p: Ref)
    requires Ranked(s0, r0) && Ranked(s, rank) && Appended(s0, r0, s, rank) && CellsOf(s0, env) && CellsOf(s, env)
    requires InStore(s0, ng) && Cell(s, p) && EnvCovered(s0, r0, env, ng) && InStore(s, [p] + ng)
    ensures EnvCovered(s, rank, env, [p] + ng)
  {
    if env.BindType? {
      CoveredAdded(s0, r0, s, rank, env.type_, ng, p);
      ParametersAdded(s0, r0, s, rank, env.parent, ng, p);
    }
  }

  lemma CoveredAdded(s0: Store, r0: seq<nat>, s: Store, rank: seq<nat>, c: Ref, ng: seq<Ref>, p: Ref)
    requires Ranked(s0, r0) && Ranked(s, rank) && Appended(s0, r0, s, rank) && InStore(s0, ng) && InStore(s, [p] + ng)
    requires Cell(s0, c) && Covered(s0, r0, c, ng)
    ensures Covered(s, rank, c, [p] + ng)
  {
    AppendedSame(s0, r0, s, rank, c);
    forall v | Cell(s, v) && Leaf(s[v]) && Within(s, rank, v, c)
      ensures s[v].kind != ErrorKind && (s[v].kind == Variable ==> NonGeneric(s, rank, v, [p] + ng))
    {
      if s[v].kind == Variable { StillNonGeneric(s0, r0, s, rank, v, ng, p); }
    }
  }

  lemma StillNonGeneric(s0: Store, r0: seq<nat>, s: Store, rank: seq<nat>, v: Ref, ng: seq<Ref>, p: Ref)
    requires Ranked(s0, r0) && Ranked(s, rank) && Appended(s0, r0, s, rank) && InStore(s0, ng) && InStore(s, [p] + ng)
    requires Cell(s0, v) && NonGeneric(s0, r0, v, ng)
    ensures Cell(s, v) && NonGeneric(s, rank, v, [p] + ng)
  {
    var k :| 0 <= k < |ng| && Within(s0, r0, v, ng[k]);
    AppendedSame(s0, r0, s, rank, ng[k]);
    assert ([p] + ng)[k + 1] == ng[k];
  }

  lemma InferLambda(s0: Store, r0: seq<nat>, s1: Store, r1: seq<nat>, s: Store, rank: seq<nat>, n: nat,
                    env: TypeEnvironment, ng: seq<Ref>, id: Symbol, body: Expr, tb: Ref)
    requires Ranked(s0, r0) && Ranked(s1, r1) && Ranked(s, rank) && Scope(s0, r0, env, ng)
    requires s1 == s0 + [VARIABLE] && r1 == r0 + [1] && InStore(s1, [|s0|] + ng)
    requires Inferred(s1, r1, s, rank, BindType(id, |s0|, env), [|s0|] + ng, body, tb)
    requires Cell(s, |s0|) && rank[|s0|] < n && rank[tb] < n
    ensures var s', rank' := s + [TypeExp(Func, |s0|, tb)], rank + [n];
            Ranked(s', rank') && Inferred(s0, r0, s', rank', env, ng, Lambda(id, body), |s|)
  {
    hide Ranked, Evolved, Simple, HasType;
    var p, d, d1 := |s0|, Domain(s0, r0, ng), Domain(s1, r1, [|s0|] + ng);
    var s', rank' := s + [TypeExp(Func, p, tb)], rank + [n];
    EnterParameter(s0, r0, env, ng, id);
    AppendedEvolved(s0, r0, s1, r1, d);
    EvolvedTrans(s0, s1, r1, s, rank, d, d1);
    SimpleLater(s1, r1, s, rank, p, d1);
    SimpleWider(s, rank, p, d1, d);
    SimpleWider(s, rank, tb, d1, d);
    NewType(s, rank, Func, p, tb, n, d);
    EvolvedTrans(s0, s, rank, s', rank', d, d);
    NewType(s, rank, Func, p, tb, n, d1);
    InferredLater(s1, r1, s, rank, s', rank', BindType(id, p, env), [p] + ng, body, tb);
    LambdaType(s', rank', env, id, body, p, tb, |s|, d);
  }

  lemma LambdaType(s: Store, rank: seq<nat>, env: TypeEnvironment, id: Symbol, body: Expr, p: Ref, tb: Ref, t: Ref,
                   d: iset<Ref>)
    requires Ranked(s, rank) && CellsOf(s, BindType(id, p, env)) && Cell(s, tb) && Cell(s, t) && Simple(s, rank, p, d)
    requires forall free: Ref -> Type :: HasType(ContextOf(s, rank, free, BindType(id, p, env)), body,
                                                 Resolve(s, rank, free, tb))
    requires forall free: Ref -> Type ::
               Resolve(s, rank, free, t) == TFunc(Resolve(s, rank, free, p), Resolve(s, rank, free, tb))
    ensures forall free: Ref -> Type :: HasType(ContextOf(s, rank, free, env), Lambda(id, body),
                                                Resolve(s, rank, free, t))
  {
    forall free: Ref -> Type
      ensures HasType(ContextOf(s, rank, free, env), Lambda(id, body), Resolve(s, rank, free, t)) {
      InstancesMono(s, rank, free, p);
    }
  }

  // ----- Definitions -----

  /** Contexts of two choices of types that agree on non-generic variables, with cells added in
      between. */
  lemma ContextAgreesLater(s1: Store, r1: seq<nat>, s: Store, rank: seq<nat>, env: TypeEnvironment, ng: seq<Ref>,
                           f: Ref -> Type, h: Ref -> Type)
    requires Ranked(s1, r1) && Ranked(s, rank) && Appended(s1, r1, s, rank) && CellsOf(s, env) && InStore(s1, ng) &&
             InStore(s, ng)
    requires EnvCovered(s, rank, env, ng)
    requires forall v :: Cell(s1, v) && IsUnbound(s1[v]) && NonGeneric(s1, r1, v, ng) ==> f(v) == h(v)
    ensures ContextOf(s, rank, f, env) == ContextOf(s, rank, h, env)
  {
    forall v | Cell(s, v) && IsUnbound(s[v]) && NonGeneric(s, rank, v, ng) ensures f(v) == h(v) {
      var k :| 0 <= k < |ng| && Within(s, rank, v, ng[k]);
      AppendedSame(s1, r1, s, rank, ng[k]);
      AppendedNonGeneric(s1, r1, s, rank, v, ng);
    }
    ContextAgrees(s, rank, f, h, env, ng);
  }

  /** The definition has every instance of its generalised type. */
  lemma DefinitionHas(s0: Store, r0: seq<nat>, s1: Store, r1: seq<nat>, s: Store, rank: seq<nat>,
                      env: TypeEnvironment, ng: seq<Ref>, value: Expr, t: Ref, g: Ref, m: map<Ref, Ref>,
                      free: Ref -> Type, a: Type)
    requires Ranked(s0, r0) && Ranked(s1, r1) && Ranked(s, rank) && Scope(s0, r0, env, ng) && InStore(s1, ng)
    requires Inferred(s0, r0, s1, r1, env, ng, value, t)
    requires CopyMade(s1, r1, Generalisation(s1, r1, ng), s, rank, t, g, m) && IsInstance(s, rank, free, g, a)
    ensures CellsOf(s, env) && HasType(ContextOf(s, rank, free, env), value, a)
  {
    hide Ranked, Evolved, Simple, HasType, IsInstance, Resolve, NonGeneric;
    var d := Domain(s0, r0, ng);
    AppendedEvolved(s1, r1, s, rank, d);
    InferredLater(s0, r0, s1, r1, s, rank, env, ng, value, t);
    ScopeLater(s0, r0, s, rank, env, ng);
    var f := InstanceOfGeneralised(s1, r1, s, rank, ng, t, g, m, free, a);
    ContextAgreesLater(s1, r1, s, rank, env, ng, f, free);
  }

  /** After generalising the type of a definition the body is analysed with one more name. */
  lemma EnterDefinition(s0: Store, r0: seq<nat>, s1: Store, r1: seq<nat>, s: Store, rank: seq<nat>,
                        env: TypeEnvironment, ng: seq<Ref>, id: Symbol, value: Expr, t: Ref, g: Ref, m: map<Ref, Ref>)
    requires Ranked(s0, r0) && Ranked(s1, r1) && Ranked(s, rank) && Scope(s0, r0, env, ng) && InStore(s1, ng)
    requires Inferred(s0, r0, s1, r1, env, ng, value, t)
    requires CopyMade(s1, r1, Generalisation(s1, r1, ng), s, rank, t, g, m)
    ensures Evolved(s0, s, rank, Domain(s0, r0, ng)) && Scope(s, rank, BindType(id, g, env), ng)
  {
    hide Ranked, HasType;
    var d := Domain(s0, r0, ng);
    AppendedEvolved(s1, r1, s, rank, d);
    EvolvedTrans(s0, s1, r1, s, rank, d, d);
    ScopeLater(s0, r0, s, rank, env, ng);
    GeneralisedCovered(s1, r1, s, rank, ng, t, g, m);
  }

  lemma InferLet(s0: Store, r0: seq<nat>, s1: Store, r1: seq<nat>, s2: Store, r2: seq<nat>, s: Store, rank: seq<nat>,
                 env: TypeEnvironment, ng: seq<Ref>, id: Symbol, value: Expr, body: Expr, t: Ref, g: Ref,
                 m: map<Ref, Ref>, tb: Ref)
    requires Ranked(s0, r0) && Ranked(s1, r1) && Ranked(s2, r2) && Ranked(s, rank)
    requires Scope(s0, r0, env, ng) && InStore(s1, ng) && InStore(s2, ng)
    requires Inferred(s0, r0, s1, r1, env, ng, value, t)
    requires CopyMade(s1, r1, Generalisation(s1, r1, ng), s2, r2, t, g, m)
    requires Inferred(s2, r2, s, rank, BindType(id, g, env), ng, body, tb)
    ensures Inferred(s0, r0, s, rank, env, ng, Let(id, value, body), tb)
  {
    hide Ranked, Evolved, Simple, HasType, CopyMade;
    var d, d2 := Domain(s0, r0, ng), Domain(s2, r2, ng);
    EnterDefinition(s0, r0, s1, r1, s2, r2, env, ng, id, value, t, g, m);
    DomainLater(s0, r0, s2, r2, ng);
    EvolvedTrans(s0, s2, r2, s, rank, d, d2);
    SimpleWider(s, rank, tb, d2, d);
    forall free: Ref -> Type
      ensures HasType(ContextOf(s, rank, free, env), Let(id, value, body), Resolve(s, rank, free, tb)) {
      var back := Through(s, rank, free);
      ContextLater(s2, r2, s, rank, d2, free, BindType(id, g, env));
      ContextLater(s2, r2, s, rank, d2, free, env);
      var c, types := ContextOf(s, rank, free, env), Instances(s2, r2, back, g);
      forall a | a in types ensures HasType(c, value, a) {
        DefinitionHas(s0, r0, s1, r1, s2, r2, env, ng, value, t, g, m, back, a);
      }
      SomeInstance(s2, r2, back, g);
      LetType(c, id, value, body, types, Resolve(s, rank, free, tb));
    }
  }

  lemma SomeInstance(s: Store, rank: seq<nat>, free: Ref -> Type, c: Ref)
    requires Ranked(s, rank) && Cell(s, c)
    ensures Resolve(s, rank, free, c) in Instances(s, rank, free, c)
  {
    assert AgreeOnUnbound(s, free, free);
  }

  lemma LetType(c: Context, id: Symbol, value: Expr, body: Expr, types: iset<Type>, t: Type)
    requires HasType(Named(id, types, c), body, t) && (exists a :: a in types) && forall a :: a in types ==>
               HasType(c, value, a)
    ensures HasType(c, Let(id, value, body), t)
  {
    WiderSelf(c);
    assert types <= Types(c, value);
    WiderHasType(Named(id, types, c), Named(id, Types(c, value), c), body, t);
  }

  lemma LetRecType(c: Context, id: Symbol, value: Expr, body: Expr, types: iset<Type>, t: Type)
    requires HasType(Named(id, types, c), body, t) && (exists a :: a in types)
    requires forall a :: a in types ==> HasType(Named(id, iset{a}, c), value, a)
    ensures HasType(c, LetRec(id, value, body), t)
  {
    WiderSelf(c);
    assert types <= RecursiveTypes(c, id, value);
    WiderHasType(Named(id, types, c), Named(id, RecursiveTypes(c, id, value), c), body, t);
  }

  // ----- The other expressions -----

  lemma InferIf(s0: Store, r0: seq<nat>, s: Store, rank: seq<nat>, s': Store, rank': seq<nat>, env: TypeEnvironment,
                ng: seq<Ref>, test: Expr, a: Expr, b: Expr, tt: Ref, ta: Ref, tb: Ref)
    requires Ranked(s0, r0) && Ranked(s, rank) && Ranked(s', rank') && InStore(s0, ng)
    requires Inferred(s0, r0, s, rank, env, ng, test, tt)
    requires forall free: Ref -> Type :: Resolve(s, rank, free, tt) == TBool
    requires Inferred(s0, r0, s, rank, env, ng, a, ta) && Inferred(s0, r0, s, rank, env, ng, b, tb)
    requires Unified(s, rank, s', rank', ta, tb, Domain(s0, r0, ng), false)
    ensures Inferred(s0, r0, s', rank', env, ng, If(test, a, b), ta)
  {
    hide Ranked, Simple, Unified, Evolved, Domain;
    var d := Domain(s0, r0, ng);
    UnifiedEvolved(s0, r0, s, rank, s', rank', ta, tb, d);
    InferredLater(s0, r0, s, rank, s', rank', env, ng, test, tt);
    InferredLater(s0, r0, s, rank, s', rank', env, ng, a, ta);
    InferredLater(s0, r0, s, rank, s', rank', env, ng, b, tb);
    forall free: Ref -> Type
      ensures HasType(ContextOf(s', rank', free, env), If(test, a, b), Resolve(s', rank', free, ta)) {
      ResolveLater(s, rank, s', rank', free, tt);
    }
  }

  lemma SettledLater(s: Store, rank: seq<nat>, s': Store, rank': seq<nat>, t: Ref, a: Type)
    requires Ranked(s, rank) && Ranked(s', rank') && Later(s, s') && Cell(s, t)
    requires forall free: Ref -> Type :: Resolve(s, rank, free, t) == a
    ensures forall free: Ref -> Type :: Resolve(s', rank', free, t) == a
  {
    forall free: Ref -> Type ensures Resolve(s', rank', free, t) == a {
      ResolveLater(s, rank, s', rank', free, t);
    }
  }

  /** Unifying with one of the fixed types. */
  lemma UnifiedStatic(s0: Store, r0: seq<nat>, s: Store, rank: seq<nat>, s': Store, rank': seq<nat>, t: Ref, r: Ref,
                      d: iset<Ref>)
    requires Ranked(s, rank) && Ranked(s', rank') && Cell(s, t) && Cell(s, r) && r in {INTEGER, BOOLEAN} &&
             Simple(s, rank, t, d)
    requires Unified(s, rank, s', rank', t, r, d, false)
    ensures Evolved(s, s', rank', d) && |s'| == |s|
    ensures forall free: Ref -> Type :: Resolve(s', rank', free, t) == if r == INTEGER then TInt else TBool
  {
    StaticSimple(s, rank, r, d);
    StaticSimple(s', rank', r, d);
    hide Unified, Simple;
    UnifiedEvolved(s0, r0, s, rank, s', rank', t, r, d);
  }

  /** The result of an operator, once its operands are what it needs. */
  lemma InferOperator(s0: Store, r0: seq<nat>, s: Store, rank: seq<nat>, env: TypeEnvironment, ng: seq<Ref>,
                      op: BinaryOp, l: Expr, r: Expr, tl: Ref, tr: Ref)
    requires Ranked(s0, r0) && Ranked(s, rank) && InStore(s0, ng)
    requires Inferred(s0, r0, s, rank, env, ng, l, tl) && Inferred(s0, r0, s, rank, env, ng, r, tr)
    requires forall free: Ref -> Type :: Resolve(s, rank, free, tl) == Resolve(s, rank, free, tr)
    requires op != Equals ==> forall free: Ref -> Type :: Resolve(s, rank, free, tl) == TInt
    ensures Inferred(s0, r0, s, rank, env, ng, Binary(op, l, r), if op == Equals then BOOLEAN else INTEGER)
  {
    var t := if op == Equals then BOOLEAN else INTEGER;
    StaticSimple(s, rank, t, Domain(s0, r0, ng));
    hide Ranked, Simple, Evolved, Domain, Resolve, ContextOf;
    forall free: Ref -> Type
      ensures HasType(ContextOf(s, rank, free, env), Binary(op, l, r), Resolve(s, rank, free, t)) {
      OperatorType(ContextOf(s, rank, free, env), op, l, r, Resolve(s, rank, free, tl));
    }
  }

  lemma OperatorType(c: Context, op: BinaryOp, l: Expr, r: Expr, a: Type)
    requires HasType(c, l, a) && HasType(c, r, a) && (op == Equals || a == TInt)
    ensures HasType(c, Binary(op, l, r), if op == Equals then TBool else TInt)
  {
  }

  lemma InferConstant(s: Store, rank: seq<nat>, env: TypeEnvironment, ng: seq<Ref>, e: Expr)
    requires Ranked(s, rank) && InStore(s, ng) && CellsOf(s, env) && (e.Literal? || e.True? || e.False?)
    ensures Inferred(s, rank, s, rank, env, ng, e, if e.Literal? then INTEGER else BOOLEAN)
  {
    var d := Domain(s, rank, ng);
    NotEvolved(s, rank, d);
    StaticSimple(s, rank, INTEGER, d);
    StaticSimple(s, rank, BOOLEAN, d);
    hide Ranked, Simple, Evolved, Domain;
  }

  lemma InferUnary(s0: Store, r0: seq<nat>, s: Store, rank: seq<nat>, env: TypeEnvironment, ng: seq<Ref>,
                   op: UnaryOp, a: Expr, t: Ref)
    requires Ranked(s0, r0) && Ranked(s, rank) && InStore(s0, ng) && Inferred(s0, r0, s, rank, env, ng, a, t)
    ensures Inferred(s0, r0, s, rank, env, ng, Unary(op, a), t)
  {
    hide Ranked, Simple, Evolved, Domain;
  }

  lemma InferTuple(s0: Store, r0: seq<nat>, s: Store, rank: seq<nat>, n: nat, env: TypeEnvironment, ng: seq<Ref>,
                   first: Expr, rest: Expr, length: nat, tf: Ref, tr: Ref)
    requires Ranked(s0, r0) && Ranked(s, rank) && InStore(s0, ng)
    requires Inferred(s0, r0, s, rank, env, ng, first, tf) && Inferred(s0, r0, s, rank, env, ng, rest, tr)
    requires Cell(s, tf) && Cell(s, tr) && rank[tf] < n && rank[tr] < n
    ensures var s', rank' := s + [TypeExp(TupleKind, tf, tr)], rank + [n];
            Ranked(s', rank') && Inferred(s0, r0, s', rank', env, ng, Expr.Tuple(first, rest, length), |s|)
  {
    hide Ranked, Simple, Evolved, Domain;
    var s', rank' := s + [TypeExp(TupleKind, tf, tr)], rank + [n];
    NewType(s, rank, TupleKind, tf, tr, n, Domain(s0, r0, ng));
    InferredLater(s0, r0, s, rank, s', rank', env, ng, first, tf);
    InferredLater(s0, r0, s, rank, s', rank', env, ng, rest, tr);
    assert TupleKind != Func;
    forall free: Ref -> Type
      ensures HasType(ContextOf(s', rank', free, env), Expr.Tuple(first, rest, length), Resolve(s', rank', free, |s|))
    {
      assert Resolve(s', rank', free, |s|) == TTuple(Resolve(s', rank', free, tf), Resolve(s', rank', free, tr));
    }
  }

  lemma InferTupleFinal(s0: Store, r0: seq<nat>, s: Store, rank: seq<nat>, n: nat, env: TypeEnvironment,
                        ng: seq<Ref>, first: Expr, tf: Ref)
    requires Ranked(s0, r0) && Ranked(s, rank) && InStore(s0, ng)
    requires Inferred(s0, r0, s, rank, env, ng, first, tf) && Cell(s, tf) && rank[tf] < n
    ensures var s', rank' := s + [TypeExp(FinalKind, tf, NULL)], rank + [n];
            Ranked(s', rank') && Inferred(s0, r0, s', rank', env, ng, Expr.TupleFinal(first), |s|)
  {
    hide Ranked, Simple, Evolved, Domain;
    var s', rank' := s + [TypeExp(FinalKind, tf, NULL)], rank + [n];
    NewFinal(s, rank, tf, n, Domain(s0, r0, ng));
    InferredLater(s0, r0, s, rank, s', rank', env, ng, first, tf);
    forall free: Ref -> Type
      ensures HasType(ContextOf(s', rank', free, env), Expr.TupleFinal(first), Resolve(s', rank', free, |s|))
    {
      assert Resolve(s', rank', free, |s|) == TFinal(Resolve(s', rank', free, tf));
    }
  }
}
