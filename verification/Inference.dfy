/** Why inference is sound: what each kind of expression adds to the store, and which types it
    may be given. */
module Inference {
  import opened Syntax
  import opened TypeCells
  import opened Typing
  import opened Unification
  import opened Schemes
  import opened Copying
  import opened Memos
  import opened CopySteps

  /** The names in scope and the enclosing parameters fit together. */
  ghost predicate Scope(s: Store, rank: seq<nat>, env: TypeEnvironment, ng: seq<Ref>)
    requires Ranked(s, rank)
  {
    && CellsOf(s, env) && InStore(s, ng) && EnvCovered(s, rank, env, ng)
    && forall k :: 0 <= k < |ng| ==> Mono(s, rank, ng[k])
  }

  /** Whatever the types of the variables that are still unbound, the expression has the type that
      has been found, and only variables that may have been bound have been. */
  ghost predicate Inferred(s0: Store, r0: seq<nat>, s: Store, rank: seq<nat>, env: TypeEnvironment, ng: seq<Ref>,
                           e: Expr, t: Ref)
    requires Ranked(s0, r0) && Ranked(s, rank) && InStore(s0, ng)
  {
    && Evolved(s0, s, rank, Domain(s0, r0, ng)) && CellsOf(s0, env) && CellsOf(s, env) && Cell(s, t)
    && Simple(s, rank, t, Domain(s0, r0, ng))
    && forall free: Ref -> Type :: HasType(ContextOf(s, rank, free, env), e, Resolve(s, rank, free, t))
  }

  // ----- Going on from a result -----

  lemma ScopeLater(s: Store, rank: seq<nat>, s': Store, rank': seq<nat>, env: TypeEnvironment, ng: seq<Ref>)
    requires Ranked(s, rank) && Ranked(s', rank') && Scope(s, rank, env, ng)
    requires Evolved(s, s', rank', Domain(s, rank, ng))
    ensures Scope(s', rank', env, ng)
  {
    CellsLater(s, s', env);
    EnvCoveredLater(s, rank, s', rank', Domain(s, rank, ng), env, ng);
    forall k | 0 <= k < |ng| ensures Mono(s', rank', ng[k]) {
      EvolvedMono(s, rank, s', rank', Domain(s, rank, ng), ng[k]);
    }
  }

  /** A result stays right while the store evolves. */
  lemma InferredLater(s0: Store, r0: seq<nat>, s: Store, rank: seq<nat>, s': Store, rank': seq<nat>,
                      env: TypeEnvironment, ng: seq<Ref>, e: Expr, t: Ref)
    requires Ranked(s0, r0) && Ranked(s, rank) && Ranked(s', rank') && InStore(s0, ng)
    requires Inferred(s0, r0, s, rank, env, ng, e, t) && Evolved(s, s', rank', Domain(s0, r0, ng))
    ensures Inferred(s0, r0, s', rank', env, ng, e, t)
  {
    hide HasType, Ranked;
    var d := Domain(s0, r0, ng);
    EvolvedTrans(s0, s, rank, s', rank', d, d);
    CellsLater(s, s', env);
    SimpleLater(s, rank, s', rank', t, d);
    forall free: Ref -> Type ensures HasType(ContextOf(s', rank', free, env), e, Resolve(s', rank', free, t)) {
      ContextLater(s, rank, s', rank', d, free, env);
      ResolveLater(s, rank, s', rank', free, t);
    }
  }

  lemma SimpleWider(s: Store, rank: seq<nat>, t: Ref, d: iset<Ref>, e: iset<Ref>)
    requires Ranked(s, rank) && Cell(s, t) && Simple(s, rank, t, d) && d <= e
    ensures Simple(s, rank, t, e)
  {
  }

  /** A result for a part is one for the time since the whole was begun. */
  lemma InferredFrom(s0: Store, r0: seq<nat>, s1: Store, r1: seq<nat>, s2: Store, r2: seq<nat>,
                     env: TypeEnvironment, ng: seq<Ref>, e: Expr, t: Ref)
    requires Ranked(s0, r0) && Ranked(s1, r1) && Ranked(s2, r2) && InStore(s0, ng) && InStore(s1, ng) &&
             CellsOf(s0, env)
    requires Evolved(s0, s1, r1, Domain(s0, r0, ng)) && Inferred(s1, r1, s2, r2, env, ng, e, t)
    ensures Inferred(s0, r0, s2, r2, env, ng, e, t)
  {
    hide HasType, Ranked, Simple;
    DomainLater(s0, r0, s1, r1, ng);
    EvolvedTrans(s0, s1, r1, s2, r2, Domain(s0, r0, ng), Domain(s1, r1, ng));
    SimpleWider(s2, r2, t, Domain(s1, r1, ng), Domain(s0, r0, ng));
  }

  /** Added cells change nothing. */
  lemma AppendedEvolved(s: Store, rank: seq<nat>, s': Store, rank': seq<nat>, d: iset<Ref>)
    requires Ranked(s, rank) && Ranked(s', rank') && Appended(s, rank, s', rank')
    ensures Evolved(s, s', rank', d)
  {
  }

  /** Unifying types of this inference is allowed, and makes them equal. */
  lemma UnifiedEvolved(s0: Store, r0: seq<nat>, s: Store, rank: seq<nat>, s': Store, rank': seq<nat>, one: Ref,
                       two: Ref, d: iset<Ref>)
    requires Ranked(s, rank) && Ranked(s', rank') && Cell(s, one) && Cell(s, two)
    requires Unified(s, rank, s', rank', one, two, d, false) && Simple(s, rank, one, d) && Simple(s, rank, two, d)
    ensures Evolved(s, s', rank', d) && |s'| == |s|
    ensures forall free: Ref -> Type :: Resolve(s', rank', free, one) == Resolve(s', rank', free, two)
  {
    forall free: Ref -> Type ensures Resolve(s', rank', free, one) == Resolve(s', rank', free, two) {
      ResolvedSolves(s', rank', free);
      var den := Resolved(s', rank', free);
      assert den[one] == den[two];
    }
  }

  /** The types that need no allocation. */
  lemma StaticSimple(s: Store, rank: seq<nat>, r: Ref, d: iset<Ref>)
    requires Ranked(s, rank) && r in {INTEGER, BOOLEAN}
    ensures Cell(s, r) && Simple(s, rank, r, d)
    ensures forall free: Ref -> Type :: Resolve(s, rank, free, r) == if r == INTEGER then TInt else TBool
  {
    assert WellFormedCell(s[r], |s|) && s[r].kind in {Int, Bool};
    forall v | Cell(s, v) && Within(s, rank, v, r) ensures v == r { NothingInside(s, rank, r, v); }
  }

  // ----- New types -----

  /** A new variable. */
  lemma NewVariable(s: Store, rank: seq<nat>, d: iset<Ref>)
    requires Ranked(s, rank) && |s| in d
    ensures Ranked(s + [VARIABLE], rank + [1]) && Evolved(s, s + [VARIABLE], rank + [1], d)
    ensures Simple(s + [VARIABLE], rank + [1], |s|, d)
  {
    AddRanked(s, rank, VARIABLE, 1);
    AppendedEvolved(s, rank, s + [VARIABLE], rank + [1], d);
    var s', rank' := s + [VARIABLE], rank + [1];
    assert s'[|s|] == VARIABLE;
    forall v | Cell(s', v) && IsUnbound(s'[v]) && Within(s', rank', v, |s|) ensures v in d {
      NothingInside(s', rank', |s|, v);
    }
  }

  /** A new function or tuple type made of two. */
  lemma NewType(s: Store, rank: seq<nat>, kind: Kind, a: Ref, b: Ref, n: nat, d: iset<Ref>)
    requires Ranked(s, rank) && Cell(s, a) && rank[a] < n && kind in {Func, TupleKind} && Cell(s, b) && rank[b] < n
    requires Simple(s, rank, a, d) && Simple(s, rank, b, d)
    ensures var s', rank' := s + [TypeExp(kind, a, b)], rank + [n];
            && Ranked(s', rank') && Evolved(s, s', rank', d) && Cell(s', |s|) && Simple(s', rank', |s|, d) &&
               Simple(s', rank', a, d) && Simple(s', rank', b, d)
            && forall free: Ref -> Type :: Resolve(s', rank', free, |s|) ==
                 if kind == Func then TFunc(Resolve(s', rank', free, a), Resolve(s', rank', free, b))
                 else TTuple(Resolve(s', rank', free, a), Resolve(s', rank', free, b))
  {
    var c := TypeExp(kind, a, b);
    var s', rank' := s + [c], rank + [n];
    AddRanked(s, rank, c, n);
    AppendedEvolved(s, rank, s', rank', d);
    SimpleLater(s, rank, s', rank', a, d);
    SimpleLater(s, rank, s', rank', b, d);
    assert s'[|s|] == c;
    ArgumentsConfined(s', rank', |s|, d);
  }

  lemma ArgumentsConfined(s: Store, rank: seq<nat>, r: Ref, d: iset<Ref>)
    requires Ranked(s, rank) && Cell(s, r) && s[r].kind in {Func, TupleKind, FinalKind}
    requires Cell(s, s[r].first) && Simple(s, rank, s[r].first, d)
    requires s[r].second != NULL ==> Cell(s, s[r].second) && Simple(s, rank, s[r].second, d)
    ensures Simple(s, rank, r, d)
  {
    forall v | Cell(s, v) && IsUnbound(s[v]) && Within(s, rank, v, r) ensures v in d {
      if !Within(s, rank, v, s[r].first) { assert Within(s, rank, v, s[r].second); }
    }
  }

  lemma NewFinal(s: Store, rank: seq<nat>, a: Ref, n: nat, d: iset<Ref>)
    requires Ranked(s, rank) && Cell(s, a) && rank[a] < n && Simple(s, rank, a, d)
    ensures var s', rank' := s + [TypeExp(FinalKind, a, NULL)], rank + [n];
            && Ranked(s', rank') && Evolved(s, s', rank', d) && Cell(s', |s|) && Simple(s', rank', |s|, d)
            && forall free: Ref -> Type :: Resolve(s', rank', free, |s|) == TFinal(Resolve(s', rank', free, a))
  {
    var c := TypeExp(FinalKind, a, NULL);
    var s', rank' := s + [c], rank + [n];
    AddRanked(s, rank, c, n);
    AppendedEvolved(s, rank, s', rank', d);
    SimpleLater(s, rank, s', rank', a, d);
    assert s'[|s|] == c;
    ArgumentsConfined(s', rank', |s|, d);
  }

  // ----- Names -----

  /** A type whose leaves are variables has no generic variables. */
  lemma {:induction false} MonoFromLeaves(s: Store, rank: seq<nat>, r: Ref)
    requires Ranked(s, rank) && Cell(s, r)
    requires forall v :: Cell(s, v) && Leaf(s[v]) && Within(s, rank, v, r) ==> s[v].kind == Variable
    ensures Mono(s, rank, r)
    decreases rank[r]
  {
    assert Within(s, rank, r, r);
    if s[r].first != NULL {
      PartsWithin(s, rank, r, s[r].first);
      MonoFromLeaves(s, rank, s[r].first);
    }
    if s[r].second != NULL {
      PartsWithin(s, rank, r, s[r].second);
      MonoFromLeaves(s, rank, s[r].second);
    }
  }

  lemma MadeLeafMap(s0: Store, r0: seq<nat>, plan: Plan, s: Store, rank: seq<nat>, t: Ref, g: Ref, m: map<Ref, Ref>)
    requires Ranked(s0, r0) && Ranked(s, rank) && Cell(s0, t) && Proper(plan) &&
             CopyMade(s0, r0, plan, s, rank, t, g, m)
    ensures LeafMap(s, plan.kind, m)
  {
  }

  /** A use of a name gets a type with new variables, which is one of the instances. */
  lemma Instantiated(s0: Store, r0: seq<nat>, s: Store, rank: seq<nat>, ng: seq<Ref>, c: Ref, t: Ref, m: map<Ref, Ref>)
    requires Ranked(s0, r0) && Ranked(s, rank) && InStore(s0, ng) && Cell(s0, c) && Covered(s0, r0, c, ng)
    requires CopyMade(s0, r0, INSTANTIATION, s, rank, c, t, m)
    ensures Simple(s, rank, t, Domain(s0, r0, ng))
    ensures forall free: Ref -> Type :: IsInstance(s, rank, free, c, Resolve(s, rank, free, t))
  {
    MadeLeafMap(s0, r0, INSTANTIATION, s, rank, c, t, m);
    AppendedSame(s0, r0, s, rank, c);
    forall v | Cell(s, v) && Leaf(s[v]) && Within(s, rank, v, t) ensures s[v].kind == Variable &&
      v in Domain(s0, r0, ng) {
      var u := CopiedLeaf(s, rank, Generic, m, c, t, v);
      if u in m { assert m[u] == v && s[v] == VARIABLE; }
    }
    MonoFromLeaves(s, rank, t);
    forall free: Ref -> Type ensures IsInstance(s, rank, free, c, Resolve(s, rank, free, t)) {
      CopiedResolve(s, rank, Generic, m, c, t, free);
      assert AgreeOnUnbound(s, After(m, free), free);
    }
  }

  /** What a name was bound to last. */
  function LookUp(env: TypeEnvironment, id: Symbol): Ref {
    match env
    case Nothing => NULL
    case BindType(x, c, parent) => if x == id then c else LookUp(parent, id)
  }

  lemma {:induction false} LookUpUsable(s: Store, rank: seq<nat>, free: Ref -> Type, env: TypeEnvironment,
                                        id: Symbol, t: Type)
    requires Ranked(s, rank) && CellsOf(s, env) && LookUp(env, id) != NULL && Cell(s, LookUp(env, id))
    requires IsInstance(s, rank, free, LookUp(env, id), t)
    ensures Usable(ContextOf(s, rank, free, env), id, t)
  {
    if env.id != id { LookUpUsable(s, rank, free, env.parent, id, t); }
  }

  lemma {:induction false} LookUpCovered(s: Store, rank: seq<nat>, env: TypeEnvironment, ng: seq<Ref>, id: Symbol)
    requires Ranked(s, rank) && CellsOf(s, env) && LookUp(env, id) != NULL
    requires forall k :: 0 <= k < |ng| ==> Cell(s, ng[k])
    ensures Cell(s, LookUp(env, id))
    ensures EnvCovered(s, rank, env, ng) ==> Covered(s, rank, LookUp(env, id), ng)
  {
    if env.id != id { LookUpCovered(s, rank, env.parent, ng, id); }
  }

  lemma InferIdentifier(s0: Store, r0: seq<nat>, s: Store, rank: seq<nat>, env: TypeEnvironment, ng: seq<Ref>,
                        id: Symbol, t: Ref, m: map<Ref, Ref>)
    requires Ranked(s0, r0) && Ranked(s, rank) && Scope(s0, r0, env, ng) && LookUp(env, id) != NULL &&
             Cell(s0, LookUp(env, id))
    requires CopyMade(s0, r0, INSTANTIATION, s, rank, LookUp(env, id), t, m)
    ensures Inferred(s0, r0, s, rank, env, ng, Identifier(id), t)
  {
    var c := LookUp(env, id);
    LookUpCovered(s0, r0, env, ng, id);
    Instantiated(s0, r0, s, rank, ng, c, t, m);
    AppendedEvolved(s0, r0, s, rank, Domain(s0, r0, ng));
    CellsLater(s0, s, env);
    forall free: Ref -> Type ensures HasType(ContextOf(s, rank, free, env), Identifier(id), Resolve(s, rank, free, t)) {
      LookUpUsable(s, rank, free, env, id, Resolve(s, rank, free, t));
    }
  }

  // ----- Definitions -----

  /** A generalised type is a fit scheme for the same parameters. */
  lemma GeneralisedCovered(s0: Store, r0: seq<nat>, s: Store, rank: seq<nat>, ng: seq<Ref>, t: Ref, g: Ref,
                           m: map<Ref, Ref>)
    requires Ranked(s0, r0) && Ranked(s, rank) && InStore(s0, ng) && Cell(s0, t) && Mono(s0, r0, t)
    requires CopyMade(s0, r0, Generalisation(s0, r0, ng), s, rank, t, g, m)
    ensures InStore(s, ng) && Cell(s, g) && Covered(s, rank, g, ng)
  {
    MadeLeafMap(s0, r0, Generalisation(s0, r0, ng), s, rank, t, g, m);
    AppendedSame(s0, r0, s, rank, t);
    forall v | Cell(s, v) && Leaf(s[v]) && Within(s, rank, v, g)
      ensures s[v].kind != ErrorKind && (s[v].kind == Variable ==> NonGeneric(s, rank, v, ng))
    {
      var u := CopiedLeaf(s, rank, Variable, m, t, g, v);
      MonoWithin(s0, r0, u, t);
      AppendedNonGeneric(s0, r0, s, rank, u, ng);
    }
  }

  /** Each instance of a generalised type is what the type itself would be for some types of its
      variables, the same ones for those that are part of enclosing parameters. */
  lemma InstanceOfGeneralised(s0: Store, r0: seq<nat>, s: Store, rank: seq<nat>, ng: seq<Ref>, t: Ref, g: Ref,
                              m: map<Ref, Ref>, free: Ref -> Type, a: Type) returns (f: Ref -> Type)
    requires Ranked(s0, r0) && Ranked(s, rank) && InStore(s0, ng) && Cell(s0, t)
    requires CopyMade(s0, r0, Generalisation(s0, r0, ng), s, rank, t, g, m) && IsInstance(s, rank, free, g, a)
    ensures Cell(s, t) && Resolve(s, rank, f, t) == a
    ensures forall v :: Cell(s0, v) && IsUnbound(s0[v]) && NonGeneric(s0, r0, v, ng) ==> f(v) == free(v)
  {
    MadeLeafMap(s0, r0, Generalisation(s0, r0, ng), s, rank, t, g, m);
    var f': Ref -> Type :| AgreeOnUnbound(s, f', free) && Resolve(s, rank, f', g) == a;
    CopiedResolve(s, rank, Variable, m, t, g, f');
    f := After(m, f');
    forall v | Cell(s0, v) && IsUnbound(s0[v]) && NonGeneric(s0, r0, v, ng) ensures f(v) == free(v) {
      assert IsUnbound(s[v]);
    }
  }

  // ----- Two parts, one after the other -----

  lemma EvolvedWider(s: Store, s': Store, rank': seq<nat>, d: iset<Ref>, e: iset<Ref>)
    requires Ranked(s', rank') && Evolved(s, s', rank', d) && d <= e
    ensures Evolved(s, s', rank', e)
  {
  }

  lemma InferredEvolved(s0: Store, r0: seq<nat>, s: Store, rank: seq<nat>, env: TypeEnvironment, ng: seq<Ref>,
                        e: Expr, t: Ref)
    requires Ranked(s0, r0) && Ranked(s, rank) && InStore(s0, ng) && Inferred(s0, r0, s, rank, env, ng, e, t)
    ensures Evolved(s0, s, rank, Domain(s0, r0, ng)) && CellsOf(s, env) && Cell(s, t) &&
            Simple(s, rank, t, Domain(s0, r0, ng))
    ensures s[t].kind != ErrorKind
  {
    hide HasType;
  }

  lemma TwoParts(s0: Store, r0: seq<nat>, s1: Store, r1: seq<nat>, s2: Store, r2: seq<nat>, env: TypeEnvironment,
                 ng: seq<Ref>, e1: Expr, t1: Ref, e2: Expr, t2: Ref)
    requires Ranked(s0, r0) && Ranked(s1, r1) && Ranked(s2, r2) && InStore(s0, ng) && InStore(s1, ng)
    requires Inferred(s0, r0, s1, r1, env, ng, e1, t1) && Inferred(s1, r1, s2, r2, env, ng, e2, t2)
    ensures Inferred(s0, r0, s2, r2, env, ng, e1, t1) && Inferred(s0, r0, s2, r2, env, ng, e2, t2)
  {
    hide HasType, Ranked, Evolved, Simple, Domain;
    DomainLater(s0, r0, s1, r1, ng);
    EvolvedWider(s1, s2, r2, Domain(s1, r1, ng), Domain(s0, r0, ng));
    InferredLater(s0, r0, s1, r1, s2, r2, env, ng, e1, t1);
    InferredFrom(s0, r0, s1, r1, s2, r2, env, ng, e2, t2);
  }
}
