/** Why inference is complete: an expression that has a type is given one without an error, and
    every type it has is an instance of the one it is given. */
module Completeness {
  import opened Syntax
  import opened TypeCells
  import opened Typing
  import opened Unification
  import opened Schemes
  import opened Copying
  import opened Memos
  import opened CopySteps
  import opened Inference
  import opened InferenceRules
  import opened RecursiveDefinitions

  /** Types for the leaves of a later store under which the cells of an earlier one are what they
      were. */
  ghost predicate Continues(s0: Store, r0: seq<nat>, h: Ref -> Type, s: Store, rank: seq<nat>, h': Ref -> Type)
    requires Ranked(s0, r0) && Ranked(s, rank)
  {
    |s0| <= |s| && forall c :: Cell(s0, c) ==> Resolve(s, rank, h', c) == Resolve(s0, r0, h, c)
  }

  ghost predicate Arrives(s0: Store, r0: seq<nat>, h: Ref -> Type, s: Store, rank: seq<nat>, t: Ref, a: Type)
    requires Ranked(s0, r0) && Ranked(s, rank) && Cell(s, t)
  {
    exists h': Ref -> Type :: Continues(s0, r0, h, s, rank, h') && Resolve(s, rank, h', t) == a
  }

  /** Whatever type the expression has, for some types of the variables unbound before, is the type
      found, for some types of those unbound now. */
  ghost predicate Principal(s0: Store, r0: seq<nat>, s: Store, rank: seq<nat>, env: TypeEnvironment, e: Expr, t: Ref)
    requires Ranked(s0, r0) && Ranked(s, rank) && CellsOf(s0, env) && Cell(s, t)
  {
    forall h: Ref -> Type, a :: HasType(ContextOf(s0, r0, h, env), e, a) ==> Arrives(s0, r0, h, s, rank, t, a)
  }

  /** The expression has no type, whatever those of unbound variables are. */
  ghost predicate Untypable(s0: Store, r0: seq<nat>, env: TypeEnvironment, e: Expr)
    requires Ranked(s0, r0) && CellsOf(s0, env)
  {
    forall h: Ref -> Type, a :: !HasType(ContextOf(s0, r0, h, env), e, a)
  }

  /** An analysis succeeds exactly if there is a type, and then the type found is the most general. */
  ghost predicate Exactly(s0: Store, r0: seq<nat>, s: Store, rank: seq<nat>, failed: bool, env: TypeEnvironment,
                          e: Expr, t: Ref)
    requires Ranked(s0, r0) && CellsOf(s0, env)
  {
    if failed then Untypable(s0, r0, env, e)
    else Ranked(s, rank) && Cell(s, t) && Principal(s0, r0, s, rank, env, e, t)
  }

  // ----- Going on -----

  lemma {:induction false} ContextSame(s: Store, rank: seq<nat>, f: Ref -> Type, h: Ref -> Type, env: TypeEnvironment)
    requires Ranked(s, rank) && CellsOf(s, env) && AgreeOnUnbound(s, f, h)
    ensures ContextOf(s, rank, f, env) == ContextOf(s, rank, h, env)
  {
    if env.BindType? {
      InstancesAgree(s, rank, f, h, env.type_);
      ContextSame(s, rank, f, h, env.parent);
    }
  }

  lemma ContinuesContext(s0: Store, r0: seq<nat>, h: Ref -> Type, s: Store, rank: seq<nat>, h': Ref -> Type,
                         d: iset<Ref>, env: TypeEnvironment)
    requires Ranked(s0, r0) && Ranked(s, rank) && Evolved(s0, s, rank, d) && Continues(s0, r0, h, s, rank, h')
    requires CellsOf(s0, env) && CellsOf(s, env)
    ensures ContextOf(s, rank, h', env) == ContextOf(s0, r0, h, env)
  {
    ContextLater(s0, r0, s, rank, d, h', env);
    assert AgreeOnUnbound(s0, Through(s, rank, h'), h);
    ContextSame(s0, r0, Through(s, rank, h'), h, env);
  }

  lemma ContinuesTrans(s0: Store, r0: seq<nat>, h0: Ref -> Type, s1: Store, r1: seq<nat>, h1: Ref -> Type, s: Store,
                       rank: seq<nat>, h: Ref -> Type)
    requires Ranked(s0, r0) && Ranked(s1, r1) && Ranked(s, rank)
    requires Continues(s0, r0, h0, s1, r1, h1) && Continues(s1, r1, h1, s, rank, h)
    ensures Continues(s0, r0, h0, s, rank, h)
  {
  }

  /** Cells that are added leave everything as it was. */
  lemma ContinuesAppended(s0: Store, r0: seq<nat>, h: Ref -> Type, s: Store, rank: seq<nat>, h': Ref -> Type)
    requires Ranked(s0, r0) && Ranked(s, rank) && Appended(s0, r0, s, rank)
    requires forall v :: Cell(s0, v) && Leaf(s0[v]) ==> h'(v) == h(v)
    ensures Continues(s0, r0, h, s, rank, h')
  {
    forall c | Cell(s0, c) ensures Resolve(s, rank, h', c) == Resolve(s0, r0, h, c) {
      ResolveLater(s0, r0, s, rank, h', c);
      forall v | Cell(s0, v) && Leaf(s0[v]) ensures Through(s, rank, h')(v) == h(v) { assert s[v] == s0[v]; }
      ResolveAgree(s0, r0, Through(s, rank, h'), h, c);
    }
  }

  /** Types that are equal unify, and nothing else changes. */
  lemma ContinuesUnified(s: Store, rank: seq<nat>, h: Ref -> Type, s': Store, rank': seq<nat>, one: Ref, two: Ref,
                         d: iset<Ref>, failed: bool)
    requires Ranked(s, rank) && Ranked(s', rank') && Cell(s, one) && Cell(s, two)
    requires Unified(s, rank, s', rank', one, two, d, failed) && Simple(s, rank, one, d) && Simple(s, rank, two, d)
    requires Resolve(s, rank, h, one) == Resolve(s, rank, h, two)
    ensures !failed && Continues(s, rank, h, s', rank', Through(s, rank, h))
  {
    var den := Resolved(s, rank, h);
    ResolvedSolves(s, rank, h);
    assert Unifies(s, one, two, den);
    assert Solves(s', den) && |s'| == |s|;
    hide Unified, Simple, Unifies, Solves, Ranked;
    forall c | Cell(s, c) ensures Resolve(s', rank', Through(s, rank, h), c) == Resolve(s, rank, h, c) {
      ResolvedUnique(s', rank', Through(s, rank, h), den, c);
    }
  }

  /** Equal types have equal leaves. */
  lemma {:induction false} LeavesEqual(s: Store, rank: seq<nat>, f: Ref -> Type, h: Ref -> Type, c: Ref, v: Ref)
    requires Ranked(s, rank) && Cell(s, c) && Cell(s, v) && Leaf(s[v]) && Within(s, rank, v, c)
    requires Resolve(s, rank, f, c) == Resolve(s, rank, h, c)
    ensures f(v) == h(v)
    decreases rank[c]
  {
    if v == c {
    } else if s[c].first != NULL && Within(s, rank, v, s[c].first) {
      LeavesEqual(s, rank, f, h, s[c].first, v);
    } else {
      LeavesEqual(s, rank, f, h, s[c].second, v);
    }
  }

  // ----- Two parts -----

  ghost predicate ArriveBoth(s0: Store, r0: seq<nat>, h: Ref -> Type, s: Store, rank: seq<nat>, t1: Ref, a1: Type,
                              t2: Ref, a2: Type)
    requires Ranked(s0, r0) && Ranked(s, rank) && Cell(s, t1) && Cell(s, t2)
  {
    exists h': Ref -> Type ::
      Continues(s0, r0, h, s, rank, h') && Resolve(s, rank, h', t1) == a1 && Resolve(s, rank, h', t2) == a2
  }

  /** What `Exactly` says, for two expressions together. */
  ghost predicate BothExactly(s0: Store, r0: seq<nat>, s: Store, rank: seq<nat>, failed: bool, env: TypeEnvironment,
                              e1: Expr, t1: Ref, e2: Expr, t2: Ref)
    requires Ranked(s0, r0) && CellsOf(s0, env)
  {
    if failed then
      forall h: Ref -> Type, a1, a2 :: HasType(ContextOf(s0, r0, h, env), e1, a1) ==>
          !HasType(ContextOf(s0, r0, h, env), e2, a2)
    else
      && Ranked(s, rank) && Cell(s, t1) && Cell(s, t2)
      && forall h: Ref -> Type, a1, a2 ::
           HasType(ContextOf(s0, r0, h, env), e1, a1) && HasType(ContextOf(s0, r0, h, env), e2, a2) ==>
             ArriveBoth(s0, r0, h, s, rank, t1, a1, t2, a2)
  }

  /** Two expressions are analysed one after the other. */
  lemma BothFound(s0: Store, r0: seq<nat>, s1: Store, r1: seq<nat>, failed1: bool, s: Store, rank: seq<nat>,
                  failed: bool, d: iset<Ref>, env: TypeEnvironment, e1: Expr, t1: Ref, e2: Expr, t2: Ref)
    requires Ranked(s0, r0) && CellsOf(s0, env) && Exactly(s0, r0, s1, r1, failed1, env, e1, t1) && (failed1 ==> failed)
    requires !failed1 ==>
               Ranked(s1, r1) && CellsOf(s1, env) && Evolved(s0, s1, r1, d) &&
               Exactly(s1, r1, s, rank, failed, env, e2, t2)
    requires !failed ==> Cell(s, t1)
    ensures BothExactly(s0, r0, s, rank, failed, env, e1, t1, e2, t2)
  {
    hide Ranked, Evolved, HasType, Resolve, ContextOf, Continues, CellsOf;
    if !failed1 {
      forall h: Ref -> Type, a1, a2 | HasType(ContextOf(s0, r0, h, env), e1, a1) &&
        HasType(ContextOf(s0, r0, h, env), e2, a2)
        ensures !failed && ArriveBoth(s0, r0, h, s, rank, t1, a1, t2, a2)
      {
        var h1: Ref -> Type :| Continues(s0, r0, h, s1, r1, h1) && Resolve(s1, r1, h1, t1) == a1;
        ContinuesContext(s0, r0, h, s1, r1, h1, d, env);
        assert HasType(ContextOf(s1, r1, h1, env), e2, a2);
        assert !failed;
        var h2: Ref -> Type :| Continues(s1, r1, h1, s, rank, h2) && Resolve(s, rank, h2, t2) == a2;
        ContinuesTrans(s0, r0, h, s1, r1, h1, s, rank, h2);
        ContinuesAt(s1, r1, h1, s, rank, h2, t1);
      }
    }
  }

  lemma ContinuesAt(s0: Store, r0: seq<nat>, h: Ref -> Type, s: Store, rank: seq<nat>, h': Ref -> Type, c: Ref)
    requires Ranked(s0, r0) && Ranked(s, rank) && Continues(s0, r0, h, s, rank, h') && Cell(s0, c)
    ensures Cell(s, c) && Resolve(s, rank, h', c) == Resolve(s0, r0, h, c)
  {
  }

  function First(e: Expr): Expr {
    match e
    case Apply(f, _) => f
    case If(_, a, _) => a
    case Binary(_, l, _) => l
    case Tuple(first, _, _) => first
    case _ => e
  }

  function Second(e: Expr): Expr {
    match e
    case Apply(_, a) => a
    case If(_, _, b) => b
    case Binary(_, _, r) => r
    case Tuple(_, rest, _) => rest
    case _ => e
  }

  predicate TwoPart(e: Expr) { e.Apply? || e.If? || e.Binary? || e.Tuple? }

  /** How the types of the two parts have to fit together. */
  predicate Fit(e: Expr, a1: Type, a2: Type) {
    match e
    case Apply(_, _) => a1.TFunc? && a1.from == a2
    case If(_, _, _) => a1 == a2
    case Binary(op, _, _) => a1 == a2 && (op != Equals ==> a1 == TInt)
    case Tuple(_, _, _) => true
    case _ => false
  }

  /** The type they give the whole. */
  function Whole(e: Expr, a1: Type, a2: Type): Type {
    match e
    case Apply(_, _) => if a1.TFunc? then a1.to else a1
    case Binary(op, _, _) => if op == Equals then TBool else TInt
    case Tuple(_, _, _) => TTuple(a1, a2)
    case _ => a1
  }

  /** What the typing rule asks of the parts. */
  ghost predicate Parts(g: Context, e: Expr, a1: Type, a2: Type) {
    HasType(g, First(e), a1) && HasType(g, Second(e), a2) && Fit(e, a1, a2) && (e.If? ==> HasType(g, e.test, TBool))
  }

  lemma PartsOf(g: Context, e: Expr, a: Type) returns (a1: Type, a2: Type)
    requires TwoPart(e) && HasType(g, e, a)
    ensures Parts(g, e, a1, a2) && a == Whole(e, a1, a2)
  {
    match e
    case Apply(f, x) =>
      var from :| HasType(g, f, TFunc(from, a)) && HasType(g, x, from);
      a1, a2 := TFunc(from, a), from;
    case If(_, _, _) => a1, a2 := a, a;
    case Binary(op, l, r) =>
      if op == Equals {
        a1 :| HasType(g, l, a1) && HasType(g, r, a1);
        a2 := a1;
      } else {
        a1, a2 := TInt, TInt;
      }
    case Tuple(_, _, _) => a1, a2 := a.first, a.rest;
  }

  /** The same for the parts of an expression. */
  ghost predicate PartsExactly(s0: Store, r0: seq<nat>, s: Store, rank: seq<nat>, failed: bool, env: TypeEnvironment,
                               e: Expr, t1: Ref, t2: Ref)
    requires Ranked(s0, r0) && CellsOf(s0, env)
  {
    if failed then
      forall h: Ref -> Type, a1, a2 :: !Parts(ContextOf(s0, r0, h, env), e, a1, a2)
    else
      && Ranked(s, rank) && Cell(s, t1) && Cell(s, t2)
      && forall h: Ref -> Type, a1, a2 ::
           Parts(ContextOf(s0, r0, h, env), e, a1, a2) ==> ArriveBoth(s0, r0, h, s, rank, t1, a1, t2, a2)
  }

  lemma PartsFound(s0: Store, r0: seq<nat>, s: Store, rank: seq<nat>, failed: bool, env: TypeEnvironment, e: Expr,
                   t1: Ref, t2: Ref)
    requires Ranked(s0, r0) && CellsOf(s0, env) &&
             BothExactly(s0, r0, s, rank, failed, env, First(e), t1, Second(e), t2)
    ensures PartsExactly(s0, r0, s, rank, failed, env, e, t1, t2)
  {
    hide Ranked, HasType, ContextOf, ArriveBoth, CellsOf;
  }

  /** Two cells have the same type whenever the parts fit. */
  ghost predicate EqualWhenFit(s: Store, rank: seq<nat>, e: Expr, t1: Ref, t2: Ref, one: Ref, two: Ref)
    requires Ranked(s, rank) && Cell(s, t1) && Cell(s, t2) && Cell(s, one) && Cell(s, two)
  {
    forall h: Ref -> Type :: Fit(e, Resolve(s, rank, h, t1), Resolve(s, rank, h, t2)) ==>
        Resolve(s, rank, h, one) == Resolve(s, rank, h, two)
  }

  /** Unifying what has to be equal for the parts to fit loses no type, and fails only if there was none. */
  lemma PartsUnified(s0: Store, r0: seq<nat>, s1: Store, r1: seq<nat>, failed1: bool, s: Store, rank: seq<nat>,
                     failed: bool, env: TypeEnvironment, e: Expr, t1: Ref, t2: Ref, one: Ref, two: Ref, d: iset<Ref>)
    requires Ranked(s0, r0) && CellsOf(s0, env) && PartsExactly(s0, r0, s1, r1, failed1, env, e, t1, t2) &&
             (failed1 ==> failed)
    requires !failed1 ==>
               && Ranked(s, rank) && Cell(s1, one) && Cell(s1, two) && EqualWhenFit(s1, r1, e, t1, t2, one, two)
               && Unified(s1, r1, s, rank, one, two, d, failed) && Simple(s1, r1, one, d) && Simple(s1, r1, two, d)
    ensures PartsExactly(s0, r0, s, rank, failed, env, e, t1, t2)
  {
    hide Ranked, HasType, Resolve, ContextOf, Continues, CellsOf, Unified, Simple, Through, First, Second, Fit;
    if !failed1 {
      SameSize(s1, r1, s, rank, one, two, d, failed);
      forall h: Ref -> Type, a1, a2 | Parts(ContextOf(s0, r0, h, env), e, a1, a2)
        ensures !failed && ArriveBoth(s0, r0, h, s, rank, t1, a1, t2, a2)
      {
        var h1: Ref -> Type :| Continues(s0, r0, h, s1, r1, h1) && Resolve(s1, r1, h1, t1) == a1 &&
        Resolve(s1, r1, h1, t2) == a2;
        ContinuesUnified(s1, r1, h1, s, rank, one, two, d, failed);
        var h2 := Through(s1, r1, h1);
        ContinuesTrans(s0, r0, h, s1, r1, h1, s, rank, h2);
        ContinuesAt(s1, r1, h1, s, rank, h2, t1);
        ContinuesAt(s1, r1, h1, s, rank, h2, t2);
      }
    }
  }

  /** A type for the whole, once the parts have been found. */
  lemma WholeFound(s0: Store, r0: seq<nat>, s: Store, rank: seq<nat>, failed: bool, env: TypeEnvironment, e: Expr,
                   t1: Ref, t2: Ref, t: Ref)
    requires Ranked(s0, r0) && CellsOf(s0, env) && TwoPart(e) && PartsExactly(s0, r0, s, rank, failed, env, e, t1, t2)
    requires !failed ==> Cell(s, t) && forall h: Ref -> Type ::
               Resolve(s, rank, h, t) == Whole(e, Resolve(s, rank, h, t1), Resolve(s, rank, h, t2))
    ensures Exactly(s0, r0, s, rank, failed, env, e, t)
  {
    hide Ranked, HasType, Resolve, ContextOf, Continues, CellsOf, Parts, Whole;
    forall h: Ref -> Type, a | HasType(ContextOf(s0, r0, h, env), e, a) ensures !failed &&
      Arrives(s0, r0, h, s, rank, t, a) {
      var a1, a2 := PartsOf(ContextOf(s0, r0, h, env), e, a);
      assert !failed;
      var h1: Ref -> Type :| Continues(s0, r0, h, s, rank, h1) && Resolve(s, rank, h1, t1) == a1 &&
        Resolve(s, rank, h1, t2) == a2;
    }
  }

  // ----- Names, constants and functions -----

  lemma {:induction false} UsableIsInstance(s: Store, rank: seq<nat>, h: Ref -> Type, env: TypeEnvironment,
                                            id: Symbol, a: Type)
    requires Ranked(s, rank) && CellsOf(s, env) && Usable(ContextOf(s, rank, h, env), id, a)
    ensures LookUp(env, id) != NULL && Cell(s, LookUp(env, id)) && IsInstance(s, rank, h, LookUp(env, id), a)
  {
    if env.id != id { UsableIsInstance(s, rank, h, env.parent, id, a); }
  }

  lemma UnboundName(s: Store, rank: seq<nat>, env: TypeEnvironment, id: Symbol)
    requires Ranked(s, rank) && CellsOf(s, env) && LookUp(env, id) == NULL
    ensures Untypable(s, rank, env, Identifier(id))
  {
    forall h: Ref -> Type, a ensures !HasType(ContextOf(s, rank, h, env), Identifier(id), a) {
      if Usable(ContextOf(s, rank, h, env), id, a) { UsableIsInstance(s, rank, h, env, id, a); }
    }
  }

  lemma IdentifierPrincipal(s0: Store, r0: seq<nat>, s: Store, rank: seq<nat>, env: TypeEnvironment, ng: seq<Ref>,
                            id: Symbol, t: Ref, m: map<Ref, Ref>)
    requires Ranked(s0, r0) && Ranked(s, rank) && Scope(s0, r0, env, ng) && LookUp(env, id) != NULL &&
             Cell(s0, LookUp(env, id)) && Cell(s, t)
    requires CopyMade(s0, r0, INSTANTIATION, s, rank, LookUp(env, id), t, m)
    ensures Principal(s0, r0, s, rank, env, Identifier(id), t)
  {
    LookUpCovered(s0, r0, env, ng, id);
    hide Ranked, CopyMade, IsInstance, EnvCovered, Covered;
    forall h: Ref -> Type, a | HasType(ContextOf(s0, r0, h, env), Identifier(id), a)
      ensures Arrives(s0, r0, h, s, rank, t, a) {
      UsableIsInstance(s0, r0, h, env, id, a);
      InstanceReached(s0, r0, s, rank, ng, LookUp(env, id), t, m, h, a);
    }
  }

  /** Each new variable takes the type that the instance has in its place. */
  lemma InstanceReached(s0: Store, r0: seq<nat>, s: Store, rank: seq<nat>, ng: seq<Ref>, c: Ref, t: Ref,
                        m: map<Ref, Ref>, h: Ref -> Type, a: Type)
    requires Ranked(s0, r0) && Ranked(s, rank) && InStore(s0, ng) && Cell(s0, c) && Cell(s, t) &&
             IsInstance(s0, r0, h, c, a)
    requires Covered(s0, r0, c, ng) && CopyMade(s0, r0, INSTANTIATION, s, rank, c, t, m)
    ensures Arrives(s0, r0, h, s, rank, t, a)
  {
    var f: Ref -> Type :| AgreeOnUnbound(s0, f, h) && Resolve(s0, r0, f, c) == a;
    AppendedSame(s0, r0, s, rank, c);
    PlacedBack(s0, r0, INSTANTIATION, s, rank, c, t, m, f, h);
    PlacedContinues(s0, r0, s, rank, m, f, h);
  }

  /** The types of `f` at the leaves that are replaced, put at their replacements. */
  ghost function Placed(s0: Store, m: map<Ref, Ref>, f: Ref -> Type, h: Ref -> Type): Ref -> Type {
    v => if Cell(s0, v) then h(v) else if exists w :: w in m && m[w] == v then (var w :| w in m && m[w] == v; f(w))
      else h(v)
  }

  lemma PlacedContinues(s0: Store, r0: seq<nat>, s: Store, rank: seq<nat>, m: map<Ref, Ref>, f: Ref -> Type,
                        h: Ref -> Type)
    requires Ranked(s0, r0) && Ranked(s, rank) && Appended(s0, r0, s, rank)
    ensures Continues(s0, r0, h, s, rank, Placed(s0, m, f, h))
  {
    hide Ranked, Resolve, Appended;
    ContinuesAppended(s0, r0, h, s, rank, Placed(s0, m, f, h));
  }

  /** With them the copy stands for what the original does with `f`. */
  lemma PlacedBack(s0: Store, r0: seq<nat>, plan: Plan, s: Store, rank: seq<nat>, c: Ref, t: Ref, m: map<Ref, Ref>,
                   f: Ref -> Type, h: Ref -> Type)
    requires Ranked(s0, r0) && Ranked(s, rank) && Cell(s0, c) && Cell(s, t) && Proper(plan) &&
             CopyMade(s0, r0, plan, s, rank, c, t, m)
    requires forall v ::
               Cell(s0, v) && Leaf(s0[v]) && Within(s0, r0, v, c) && (s0[v].kind != plan.kind || v in plan.keep) ==>
                 f(v) == h(v)
    ensures Resolve(s, rank, Placed(s0, m, f, h), t) == Resolve(s0, r0, f, c)
  {
    var h' := Placed(s0, m, f, h);
    MadeLeafMap(s0, r0, plan, s, rank, c, t, m);
    CopiedResolve(s, rank, plan.kind, m, c, t, h');
    AppendedSame(s0, r0, s, rank, c);
    forall v | Cell(s, v) && Leaf(s[v]) && Within(s, rank, v, c) ensures After(m, h')(v) == f(v) {
      CopiedLeafBack(s, rank, plan.kind, m, c, t, v);
      assert s[v] == s0[v];
      if v in m && v !in plan.keep { PlacedAt(s0, m, f, h, v); }
    }
    ResolveAgree(s, rank, After(m, h'), f, c);
    AppendedResolve(s0, r0, s, rank, c, f);
  }

  lemma PlacedAt(s0: Store, m: map<Ref, Ref>, f: Ref -> Type, h: Ref -> Type, v: Ref)
    requires v in m && m[v] >= |s0| && forall u, w :: u in m && w in m && u != w ==> m[u] != m[w]
    ensures Placed(s0, m, f, h)(m[v]) == f(v)
  {
  }

  lemma AppendedResolve(s0: Store, r0: seq<nat>, s: Store, rank: seq<nat>, c: Ref, f: Ref -> Type)
    requires Ranked(s0, r0) && Ranked(s, rank) && Appended(s0, r0, s, rank) && Cell(s0, c)
    ensures Resolve(s, rank, f, c) == Resolve(s0, r0, f, c)
  {
    ContinuesAppended(s0, r0, f, s, rank, f);
  }

  // ----- Expressions with two parts -----

  /** Cells that are added change nothing for the parts. */
  lemma PartsAppended(s0: Store, r0: seq<nat>, s: Store, rank: seq<nat>, s': Store, rank': seq<nat>,
                      env: TypeEnvironment, e: Expr, t1: Ref, t2: Ref)
    requires Ranked(s0, r0) && CellsOf(s0, env) && PartsExactly(s0, r0, s, rank, false, env, e, t1, t2)
    requires Ranked(s, rank) && Ranked(s', rank') && Appended(s, rank, s', rank')
    ensures PartsExactly(s0, r0, s', rank', false, env, e, t1, t2)
  {
    hide Ranked, HasType, Resolve, ContextOf, Continues, CellsOf, Parts;
    forall h: Ref -> Type, a1, a2 | Parts(ContextOf(s0, r0, h, env), e, a1, a2)
      ensures Cell(s', t1) && Cell(s', t2) && ArriveBoth(s0, r0, h, s', rank', t1, a1, t2, a2)
    {
      var h1: Ref -> Type :| Continues(s0, r0, h, s, rank, h1) && Resolve(s, rank, h1, t1) == a1 &&
        Resolve(s, rank, h1, t2) == a2;
      ContinuesAppended(s, rank, h1, s', rank', h1);
      ContinuesTrans(s0, r0, h, s, rank, h1, s', rank', h1);
      ContinuesAt(s, rank, h1, s', rank', h1, t1);
      ContinuesAt(s, rank, h1, s', rank', h1, t2);
    }
  }

  /** The callee is unified with the type it must have: from the type of the argument to a new variable. */
  lemma ApplyFound(s0: Store, r0: seq<nat>, s2: Store, r2: seq<nat>, failed2: bool, s3: Store, r3: seq<nat>,
                   s: Store, rank: seq<nat>, failed: bool, env: TypeEnvironment, e: Expr, tf: Ref, ta: Ref,
                   d: iset<Ref>)
    requires Ranked(s0, r0) && CellsOf(s0, env) && e.Apply? &&
             PartsExactly(s0, r0, s2, r2, failed2, env, e, tf, ta) && (failed2 ==> failed)
    requires !failed2 ==>
               && Ranked(s3, r3) && Ranked(s, rank) && Appended(s2, r2, s3, r3) && |s3| == |s2| + 2
               && s3[|s2|] == VARIABLE && s3[|s2| + 1] == TypeExp(Func, ta, |s2|)
               && Unified(s3, r3, s, rank, |s2| + 1, tf, d, failed) && Simple(s3, r3, |s2| + 1, d) &&
                  Simple(s3, r3, tf, d)
    ensures Exactly(s0, r0, s, rank, failed, env, e, |s2|)
  {
    hide Ranked, HasType, Resolve, ContextOf, Continues, CellsOf, Parts, Appended, Unified, Simple;
    if !failed2 { SameSize(s3, r3, s, rank, |s2| + 1, tf, d, failed); }
    forall h: Ref -> Type, a | HasType(ContextOf(s0, r0, h, env), e, a) ensures !failed &&
      Arrives(s0, r0, h, s, rank, |s2|, a) {
      var a1, a2 := PartsOf(ContextOf(s0, r0, h, env), e, a);
      assert !failed2 && a1 == TFunc(a2, a) by { assert Fit(e, a1, a2); }
      var h2: Ref -> Type :| Continues(s0, r0, h, s2, r2, h2) && Resolve(s2, r2, h2, tf) == a1 &&
        Resolve(s2, r2, h2, ta) == a2;
      var h3 := CalleeReached(s2, r2, h2, s3, r3, tf, ta, a);
      ContinuesUnified(s3, r3, h3, s, rank, |s2| + 1, tf, d, failed);
      ContinuesTrans(s0, r0, h, s2, r2, h2, s3, r3, h3);
      ContinuesTrans(s0, r0, h, s3, r3, h3, s, rank, Through(s3, r3, h3));
      ContinuesAt(s3, r3, h3, s, rank, Through(s3, r3, h3), |s2|);
    }
  }

  lemma CalleeReached(s2: Store, r2: seq<nat>, h2: Ref -> Type, s3: Store, r3: seq<nat>, tf: Ref, ta: Ref, a: Type)
    returns (h3: Ref -> Type)
    requires Ranked(s2, r2) && Ranked(s3, r3) && Appended(s2, r2, s3, r3) && |s3| == |s2| + 2 && Cell(s2, tf) &&
             Cell(s2, ta)
    requires s3[|s2|] == VARIABLE && s3[|s2| + 1] == TypeExp(Func, ta, |s2|)
    requires Resolve(s2, r2, h2, tf) == TFunc(Resolve(s2, r2, h2, ta), a)
    ensures Continues(s2, r2, h2, s3, r3, h3) && Resolve(s3, r3, h3, |s2|) == a
    ensures Resolve(s3, r3, h3, |s2| + 1) == Resolve(s3, r3, h3, tf)
  {
    h3 := v => if v == |s2| then a else h2(v);
    ContinuesAppended(s2, r2, h2, s3, r3, h3);
    ContinuesAt(s2, r2, h2, s3, r3, h3, tf);
    ContinuesAt(s2, r2, h2, s3, r3, h3, ta);
  }

  // ----- Conditionals -----

  /** The same for a test, which has to be a truth value. */
  ghost predicate TestExactly(s0: Store, r0: seq<nat>, s: Store, rank: seq<nat>, failed: bool, env: TypeEnvironment,
                              test: Expr)
    requires Ranked(s0, r0) && CellsOf(s0, env)
  {
    if failed then forall h: Ref -> Type :: !HasType(ContextOf(s0, r0, h, env), test, TBool)
    else
      && Ranked(s, rank) && Cell(s, BOOLEAN)
      && forall h: Ref -> Type :: HasType(ContextOf(s0, r0, h, env), test, TBool) ==>
           Arrives(s0, r0, h, s, rank, BOOLEAN, TBool)
  }

  lemma TestFound(s0: Store, r0: seq<nat>, s1: Store, r1: seq<nat>, failed1: bool, s: Store, rank: seq<nat>,
                  failed: bool, env: TypeEnvironment, test: Expr, t: Ref, d: iset<Ref>)
    requires Ranked(s0, r0) && CellsOf(s0, env) && Exactly(s0, r0, s1, r1, failed1, env, test, t) &&
             (failed1 ==> failed)
    requires !failed1 ==>
               Ranked(s, rank) && Cell(s1, BOOLEAN) && Unified(s1, r1, s, rank, t, BOOLEAN, d, failed) &&
               Simple(s1, r1, t, d)
    ensures TestExactly(s0, r0, s, rank, failed, env, test)
  {
    if !failed1 {
      SameSize(s1, r1, s, rank, t, BOOLEAN, d, failed);
      StaticSimple(s1, r1, BOOLEAN, d);
    }
    hide Ranked, HasType, Resolve, ContextOf, Continues, CellsOf, Unified, Simple;
    forall h: Ref -> Type | HasType(ContextOf(s0, r0, h, env), test, TBool) ensures !failed &&
      Arrives(s0, r0, h, s, rank, BOOLEAN, TBool) {
      assert !failed1 && Arrives(s0, r0, h, s1, r1, t, TBool);
      var h1: Ref -> Type :| Continues(s0, r0, h, s1, r1, h1) && Resolve(s1, r1, h1, t) == TBool;
      ContinuesUnified(s1, r1, h1, s, rank, t, BOOLEAN, d, failed);
      var h2 := Through(s1, r1, h1);
      ContinuesTrans(s0, r0, h, s1, r1, h1, s, rank, h2);
      ContinuesAt(s1, r1, h1, s, rank, h2, BOOLEAN);
    }
  }

  lemma BranchesFound(s0: Store, r0: seq<nat>, s2: Store, r2: seq<nat>, failed2: bool, s: Store, rank: seq<nat>,
                      failed: bool, d: iset<Ref>, env: TypeEnvironment, e: Expr, t1: Ref, t2: Ref)
    requires Ranked(s0, r0) && CellsOf(s0, env) && e.If? && TestExactly(s0, r0, s2, r2, failed2, env, e.test) &&
             (failed2 ==> failed)
    requires !failed2 ==>
               && Ranked(s2, r2) && CellsOf(s2, env) && Evolved(s0, s2, r2, d)
               && BothExactly(s2, r2, s, rank, failed, env, e.then_, t1, e.else_, t2)
    ensures PartsExactly(s0, r0, s, rank, failed, env, e, t1, t2)
  {
    hide Ranked, HasType, Resolve, ContextOf, Continues, CellsOf, Evolved;
    forall h: Ref -> Type, a1, a2 | Parts(ContextOf(s0, r0, h, env), e, a1, a2)
      ensures !failed && ArriveBoth(s0, r0, h, s, rank, t1, a1, t2, a2)
    {
      assert !failed2 && Arrives(s0, r0, h, s2, r2, BOOLEAN, TBool);
      var h2: Ref -> Type :| Continues(s0, r0, h, s2, r2, h2) && Resolve(s2, r2, h2, BOOLEAN) == TBool;
      ContinuesContext(s0, r0, h, s2, r2, h2, d, env);
      assert HasType(ContextOf(s2, r2, h2, env), e.then_, a1) && HasType(ContextOf(s2, r2, h2, env), e.else_, a2);
      assert !failed;
      var h3: Ref -> Type :| Continues(s2, r2, h2, s, rank, h3) && Resolve(s, rank, h3, t1) == a1 &&
        Resolve(s, rank, h3, t2) == a2;
      ContinuesTrans(s0, r0, h, s2, r2, h2, s, rank, h3);
    }
  }

  // ----- Constants, negation and the end of tuples -----

  lemma ConstantFound(s: Store, rank: seq<nat>, env: TypeEnvironment, e: Expr)
    requires Ranked(s, rank) && CellsOf(s, env) && (e.Literal? || e.True? || e.False?)
    ensures Exactly(s, rank, s, rank, false, env, e, if e.Literal? then INTEGER else BOOLEAN)
  {
    var t := if e.Literal? then INTEGER else BOOLEAN;
    StaticSimple(s, rank, t, iset{});
    forall h: Ref -> Type, a | HasType(ContextOf(s, rank, h, env), e, a) ensures Arrives(s, rank, h, s, rank, t, a) {
      assert Continues(s, rank, h, s, rank, h);
    }
  }

  lemma UnaryFound(s0: Store, r0: seq<nat>, s: Store, rank: seq<nat>, failed: bool, env: TypeEnvironment, e: Expr,
                   t: Ref)
    requires Ranked(s0, r0) && CellsOf(s0, env) && e.Unary? && Exactly(s0, r0, s, rank, failed, env, e.arg, t)
    ensures Exactly(s0, r0, s, rank, failed, env, e, t)
  {
    hide Ranked, ContextOf, CellsOf, Arrives;
    forall h: Ref -> Type, a | HasType(ContextOf(s0, r0, h, env), e, a)
      ensures HasType(ContextOf(s0, r0, h, env), e.arg, a) {}
  }

  lemma TupleFinalFound(s0: Store, r0: seq<nat>, s: Store, rank: seq<nat>, failed: bool, s': Store, rank': seq<nat>,
                        env: TypeEnvironment, e: Expr, t: Ref)
    requires Ranked(s0, r0) && CellsOf(s0, env) && e.TupleFinal? && Exactly(s0, r0, s, rank, failed, env, e.first, t)
    requires !failed ==>
               Ranked(s', rank') && Appended(s, rank, s', rank') && |s'| == |s| + 1 &&
               s'[|s|] == TypeExp(FinalKind, t, NULL)
    ensures Exactly(s0, r0, s', rank', failed, env, e, |s|)
  {
    hide Ranked, ContextOf, CellsOf, Continues, Resolve, Appended;
    forall h: Ref -> Type, a | HasType(ContextOf(s0, r0, h, env), e, a) ensures !failed &&
      Arrives(s0, r0, h, s', rank', |s|, a) {
      assert HasType(ContextOf(s0, r0, h, env), e.first, a.only);
      assert !failed && Arrives(s0, r0, h, s, rank, t, a.only);
      var h1: Ref -> Type :| Continues(s0, r0, h, s, rank, h1) && Resolve(s, rank, h1, t) == a.only;
      ContinuesAppended(s, rank, h1, s', rank', h1);
      ContinuesTrans(s0, r0, h, s, rank, h1, s', rank', h1);
      ContinuesAt(s, rank, h1, s', rank', h1, t);
      FinalResolve(s', rank', h1, |s|);
    }
  }

  lemma FinalResolve(s: Store, rank: seq<nat>, h: Ref -> Type, c: Ref)
    requires Ranked(s, rank) && Cell(s, c) && s[c].kind == FinalKind
    ensures Cell(s, s[c].first) && Resolve(s, rank, h, c) == TFinal(Resolve(s, rank, h, s[c].first))
  {
  }

  // ----- Functions -----

  /** The context of an analysis under a new parameter. */
  lemma ParameterContext(s0: Store, r0: seq<nat>, env: TypeEnvironment, id: Symbol, h: Ref -> Type, a: Type)
    returns (h1: Ref -> Type)
    requires Ranked(s0, r0) && CellsOf(s0, env)
    ensures var s1, r1 := s0 + [VARIABLE], r0 + [1];
            && Ranked(s1, r1) && CellsOf(s1, BindType(id, |s0|, env)) && Continues(s0, r0, h, s1, r1, h1) &&
               Resolve(s1, r1, h1, |s0|) == a
            && ContextOf(s1, r1, h1, BindType(id, |s0|, env)) == Named(id, iset{a}, ContextOf(s0, r0, h, env))
  {
    var s1, r1 := s0 + [VARIABLE], r0 + [1];
    h1 := v => if v == |s0| then a else h(v);
    AddRanked(s0, r0, VARIABLE, 1);
    AppendedEvolved(s0, r0, s1, r1, iset{});
    CellsLater(s0, s1, env);
    ContinuesAppended(s0, r0, h, s1, r1, h1);
    ContinuesContext(s0, r0, h, s1, r1, h1, iset{}, env);
    ParameterAlone(s1, r1, |s0|);
    InstancesMono(s1, r1, h1, |s0|);
  }

  lemma LambdaFound(s0: Store, r0: seq<nat>, s1: Store, r1: seq<nat>, s: Store, rank: seq<nat>, failed: bool,
                    s': Store, rank': seq<nat>, env: TypeEnvironment, e: Expr, tb: Ref)
    requires Ranked(s0, r0) && CellsOf(s0, env) && e.Lambda? && s1 == s0 + [VARIABLE] && r1 == r0 + [1]
    requires Ranked(s1, r1) && CellsOf(s1, BindType(e.param, |s0|, env))
    requires Exactly(s1, r1, s, rank, failed, BindType(e.param, |s0|, env), e.body, tb)
    requires !failed ==>
               Ranked(s', rank') && Appended(s, rank, s', rank') && |s'| == |s| + 1 &&
               s'[|s|] == TypeExp(Func, |s0|, tb)
    ensures Exactly(s0, r0, s', rank', failed, env, e, |s|)
  {
    hide Ranked, ContextOf, CellsOf, Continues, Resolve, Appended;
    forall h: Ref -> Type, a | HasType(ContextOf(s0, r0, h, env), e, a) ensures !failed &&
      Arrives(s0, r0, h, s', rank', |s|, a) {
      var h1 := ParameterContext(s0, r0, env, e.param, h, a.from);
      assert HasType(ContextOf(s1, r1, h1, BindType(e.param, |s0|, env)), e.body, a.to);
      assert !failed && Arrives(s1, r1, h1, s, rank, tb, a.to);
      var h2: Ref -> Type :| Continues(s1, r1, h1, s, rank, h2) && Resolve(s, rank, h2, tb) == a.to;
      ContinuesTrans(s0, r0, h, s1, r1, h1, s, rank, h2);
      ContinuesAt(s1, r1, h1, s, rank, h2, |s0|);
      ContinuesAppended(s, rank, h2, s', rank', h2);
      ContinuesTrans(s0, r0, h, s, rank, h2, s', rank', h2);
      ContinuesAt(s, rank, h2, s', rank', h2, |s0|);
      ContinuesAt(s, rank, h2, s', rank', h2, tb);
      FuncResolve(s', rank', h2, |s|);
    }
  }

  lemma FuncResolve(s: Store, rank: seq<nat>, h: Ref -> Type, c: Ref)
    requires Ranked(s, rank) && Cell(s, c) && s[c].kind == Func
    ensures Cell(s, s[c].first) && Cell(s, s[c].second)
    ensures Resolve(s, rank, h, c) == TFunc(Resolve(s, rank, h, s[c].first), Resolve(s, rank, h, s[c].second))
  {
  }

  // ----- Definitions -----

  /** Types that leave earlier cells as they are agree on the variables of enclosing parameters. */
  lemma AgreeOnParameters(s0: Store, r0: seq<nat>, h: Ref -> Type, s: Store, rank: seq<nat>, f: Ref -> Type,
                          f': Ref -> Type, ng: seq<Ref>)
    requires Ranked(s0, r0) && Ranked(s, rank) && InStore(s0, ng) && InStore(s, ng)
    requires Continues(s0, r0, h, s, rank, f) && Continues(s0, r0, h, s, rank, f')
    ensures forall v :: Cell(s, v) && Leaf(s[v]) && NonGeneric(s, rank, v, ng) ==> f(v) == f'(v)
  {
    hide Ranked, Resolve, Within, Continues;
    forall v | Cell(s, v) && Leaf(s[v]) && NonGeneric(s, rank, v, ng) ensures f(v) == f'(v) {
      var k :| 0 <= k < |ng| && Within(s, rank, v, ng[k]);
      ContinuesAt(s0, r0, h, s, rank, f, ng[k]);
      ContinuesAt(s0, r0, h, s, rank, f', ng[k]);
      LeavesEqual(s, rank, f, f', ng[k], v);
    }
  }

  /** What a type is for other types of the variables that are generalised is an instance. */
  lemma GeneralisedInstance(s1: Store, r1: seq<nat>, s: Store, rank: seq<nat>, ng: seq<Ref>, t: Ref, g: Ref,
                            m: map<Ref, Ref>, f: Ref -> Type, h: Ref -> Type)
    requires Ranked(s1, r1) && Ranked(s, rank) && InStore(s1, ng) && Cell(s1, t) && Mono(s1, r1, t) && Cell(s, g)
    requires CopyMade(s1, r1, Generalisation(s1, r1, ng), s, rank, t, g, m)
    requires forall v :: Cell(s1, v) && Leaf(s1[v]) && NonGeneric(s1, r1, v, ng) ==> f(v) == h(v)
    ensures IsInstance(s, rank, h, g, Resolve(s1, r1, f, t))
  {
    var plan := Generalisation(s1, r1, ng);
    forall v | Cell(s1, v) && Leaf(s1[v]) && Within(s1, r1, v, t) && (s1[v].kind != plan.kind || v in plan.keep)
      ensures f(v) == h(v) {
      MonoWithin(s1, r1, v, t);
    }
    PlacedBack(s1, r1, plan, s, rank, t, g, m, f, h);
    assert AgreeOnUnbound(s, Placed(s1, m, f, h), h) by { AdditionsBound(s1, r1, plan, s, rank, t, g, m); }
  }

  lemma AdditionsBound(s1: Store, r1: seq<nat>, plan: Plan, s: Store, rank: seq<nat>, t: Ref, g: Ref, m: map<Ref, Ref>)
    requires Ranked(s1, r1) && Ranked(s, rank) && Cell(s1, t) && CopyMade(s1, r1, plan, s, rank, t, g, m) &&
             plan.leaf == GENERIC
    ensures forall v :: |s1| <= v < |s| ==> !IsUnbound(s[v])
  {
  }

  /** The definition's types are among the instances of its generalised type. */
  lemma InstancesFound(s0: Store, r0: seq<nat>, h: Ref -> Type, s1: Store, r1: seq<nat>, h1: Ref -> Type, s: Store,
                       rank: seq<nat>, ng: seq<Ref>, t: Ref, g: Ref, m: map<Ref, Ref>, types: iset<Type>)
    requires Ranked(s0, r0) && Ranked(s1, r1) && Ranked(s, rank) && InStore(s0, ng) && InStore(s1, ng) &&
             Cell(s1, t) && Mono(s1, r1, t) && Cell(s, g)
    requires CopyMade(s1, r1, Generalisation(s1, r1, ng), s, rank, t, g, m)
    requires Continues(s0, r0, h, s1, r1, h1) && forall a :: a in types ==> Arrives(s0, r0, h, s1, r1, t, a)
    ensures types <= Instances(s, rank, h1, g)
  {
    hide Ranked, Resolve, Continues, CopyMade, NonGeneric, IsInstance;
    forall a | a in types ensures IsInstance(s, rank, h1, g, a) {
      var f: Ref -> Type :| Continues(s0, r0, h, s1, r1, f) && Resolve(s1, r1, f, t) == a;
      AgreeOnParameters(s0, r0, h, s1, r1, f, h1, ng);
      GeneralisedInstance(s1, r1, s, rank, ng, t, g, m, f, h1);
    }
  }

  /** The context of the body, for types under which the definition has one of its types. */
  lemma BodyContext(s0: Store, r0: seq<nat>, h: Ref -> Type, s: Store, rank: seq<nat>, h1: Ref -> Type, d: iset<Ref>,
                    env: TypeEnvironment, id: Symbol, g: Ref, types: iset<Type>, body: Expr, a: Type)
    requires Ranked(s0, r0) && Ranked(s, rank) && Evolved(s0, s, rank, d) && Continues(s0, r0, h, s, rank, h1)
    requires CellsOf(s0, env) && CellsOf(s, env) && Cell(s, g) && types <= Instances(s, rank, h1, g)
    requires HasType(Named(id, types, ContextOf(s0, r0, h, env)), body, a)
    ensures HasType(ContextOf(s, rank, h1, BindType(id, g, env)), body, a)
  {
    hide Ranked, Evolved, Continues, HasType, Resolve, Instances;
    ContinuesContext(s0, r0, h, s, rank, h1, d, env);
    WiderSelf(ContextOf(s0, r0, h, env));
    WiderHasType(Named(id, types, ContextOf(s0, r0, h, env)), ContextOf(s, rank, h1, BindType(id, g, env)), body, a);
  }

  lemma LetFound(s0: Store, r0: seq<nat>, s1: Store, r1: seq<nat>, failed1: bool, s2: Store, r2: seq<nat>, s: Store,
                 rank: seq<nat>, failed: bool, env: TypeEnvironment, ng: seq<Ref>, e: Expr, t: Ref, g: Ref,
                 m: map<Ref, Ref>, tb: Ref, d: iset<Ref>)
    requires Ranked(s0, r0) && CellsOf(s0, env) && InStore(s0, ng) && e.Let?
    requires Exactly(s0, r0, s1, r1, failed1, env, e.value_, t) && (failed1 ==> failed)
    requires !failed1 ==>
               && Ranked(s1, r1) && Ranked(s2, r2) && InStore(s1, ng) && Mono(s1, r1, t)
               && CopyMade(s1, r1, Generalisation(s1, r1, ng), s2, r2, t, g, m)
               && Appended(s1, r1, s2, r2) && Evolved(s0, s2, r2, d) && CellsOf(s2, BindType(e.id, g, env))
               && Exactly(s2, r2, s, rank, failed, BindType(e.id, g, env), e.body, tb)
    ensures Exactly(s0, r0, s, rank, failed, env, e, tb)
  {
    hide Ranked, Evolved, Continues, Resolve, Instances, CopyMade, Appended, ContextOf, Mono;
    forall h: Ref -> Type, a | HasType(ContextOf(s0, r0, h, env), e, a) ensures !failed &&
      Arrives(s0, r0, h, s, rank, tb, a) {
      var types := Types(ContextOf(s0, r0, h, env), e.value_);
      var a0 :| a0 in types;
      assert HasType(ContextOf(s0, r0, h, env), e.value_, a0);
      assert !failed1 && Arrives(s0, r0, h, s1, r1, t, a0);
      var h1: Ref -> Type :| Continues(s0, r0, h, s1, r1, h1) && Resolve(s1, r1, h1, t) == a0;
      ContinuesAppended(s1, r1, h1, s2, r2, h1);
      ContinuesTrans(s0, r0, h, s1, r1, h1, s2, r2, h1);
      InstancesFound(s0, r0, h, s1, r1, h1, s2, r2, ng, t, g, m, types);
      BodyContext(s0, r0, h, s2, r2, h1, d, env, e.id, g, types, e.body, a);
      assert !failed && Arrives(s2, r2, h1, s, rank, tb, a);
      var h2: Ref -> Type :| Continues(s2, r2, h1, s, rank, h2) && Resolve(s, rank, h2, tb) == a;
      ContinuesTrans(s0, r0, h, s2, r2, h1, s, rank, h2);
    }
  }

  // ----- Recursive definitions -----

  /** What `Exactly` says, for the types of a recursive definition. */
  ghost predicate RecExactly(s0: Store, r0: seq<nat>, s: Store, rank: seq<nat>, failed: bool, env: TypeEnvironment,
                             id: Symbol, value: Expr, t: Ref)
    requires Ranked(s0, r0) && CellsOf(s0, env)
  {
    if failed then forall h: Ref -> Type, a :: !HasType(Named(id, iset{a}, ContextOf(s0, r0, h, env)), value, a)
    else
      && Ranked(s, rank) && Cell(s, t)
      && forall h: Ref -> Type, a :: HasType(Named(id, iset{a}, ContextOf(s0, r0, h, env)), value, a) ==>
           Arrives(s0, r0, h, s, rank, t, a)
  }

  lemma DefinitionFound(s0: Store, r0: seq<nat>, sa: Store, ra: seq<nat>, sb: Store, rb: seq<nat>, failedb: bool,
                        s: Store, rank: seq<nat>, failed: bool, env: TypeEnvironment, id: Symbol, value: Expr,
                        t: Ref, d: iset<Ref>)
    requires Ranked(s0, r0) && CellsOf(s0, env) && sa == s0 + [VARIABLE] && ra == r0 + [1]
    requires Ranked(sa, ra) && CellsOf(sa, BindType(id, |s0|, env))
    requires Exactly(sa, ra, sb, rb, failedb, BindType(id, |s0|, env), value, t) && (failedb ==> failed)
    requires !failedb ==>
               && Ranked(sb, rb) && Ranked(s, rank) && Cell(sb, |s0|) && Unified(sb, rb, s, rank, |s0|, t, d, failed)
               && Simple(sb, rb, |s0|, d) && Simple(sb, rb, t, d)
    ensures RecExactly(s0, r0, s, rank, failed, env, id, value, |s0|)
  {
    hide Ranked, Continues, Resolve, ContextOf, HasType, Unified, Simple, CellsOf, Through;
    if !failedb { SameSize(sb, rb, s, rank, |s0|, t, d, failed); }
    forall h: Ref -> Type, a | HasType(Named(id, iset{a}, ContextOf(s0, r0, h, env)), value, a)
      ensures !failed && Arrives(s0, r0, h, s, rank, |s0|, a)
    {
      var ha := ParameterContext(s0, r0, env, id, h, a);
      assert !failedb && Arrives(sa, ra, ha, sb, rb, t, a);
      var hb: Ref -> Type :| Continues(sa, ra, ha, sb, rb, hb) && Resolve(sb, rb, hb, t) == a;
      ContinuesAt(sa, ra, ha, sb, rb, hb, |s0|);
      ContinuesUnified(sb, rb, hb, s, rank, |s0|, t, d, failed);
      ContinuesTrans(s0, r0, h, sa, ra, ha, sb, rb, hb);
      ContinuesTrans(s0, r0, h, sb, rb, hb, s, rank, Through(sb, rb, hb));
      ContinuesAt(sb, rb, hb, s, rank, Through(sb, rb, hb), |s0|);
    }
  }

  /** The redirected variable has every instance of the generalised type. */
  lemma InstancesRedirected(s: Store, rank: seq<nat>, t: Ref, g: Ref, rank': seq<nat>, free: Ref -> Type)
    requires Ranked(s, rank) && Cell(s, t) && Cell(s, g) && Ranked(Bind(s, t, g), rank') && s[t].kind == Variable &&
             !Within(s, rank, t, g)
    ensures Cell(Bind(s, t, g), t) && Instances(s, rank, free, g) <= Instances(Bind(s, t, g), rank', free, t)
  {
    forall a | IsInstance(s, rank, free, g, a) ensures IsInstance(Bind(s, t, g), rank', free, t, a) {
      var f: Ref -> Type :| AgreeOnUnbound(s, f, free) && Resolve(s, rank, f, g) == a;
      BindElsewhere(s, rank, t, g, rank', g, f);
      assert AgreeOnUnbound(Bind(s, t, g), f, free);
    }
  }

  /** Cells from before the definition stand for the same after redirecting. */
  lemma RedirectedContinues(s0: Store, r0: seq<nat>, h: Ref -> Type, s1: Store, r1: seq<nat>, s: Store,
                            rank: seq<nat>, h1: Ref -> Type, ng: seq<Ref>, t: Ref, g: Ref, m: map<Ref, Ref>,
                            rank': seq<nat>)
    requires Ranked(s0, r0) && Ranked(s1, r1) && Ranked(s, rank) && Redirecting(s1, r1, s, rank, ng, t, g, m) &&
             InStore(s0, ng) && t >= |s0|
    requires Cell(s, t) && Cell(s, g) && Ranked(Bind(s, t, g), rank') && Evolved(s0, s, rank, Domain(s0, r0, ng))
    requires Continues(s0, r0, h, s, rank, h1)
    ensures Continues(s0, r0, h, Bind(s, t, g), rank', h1)
  {
    var s' := Bind(s, t, g);
    RedirectedEvolved(s0, r0, s1, r1, s, rank, ng, t, g, m, rank');
    forall v | Cell(s0, v) && Leaf(s0[v]) ensures Through(s', rank', h1)(v) == Through(s, rank, h1)(v) {
      if s[v] != s0[v] {
        ChangedUnmoved(s0, r0, s1, r1, s, rank, ng, t, g, m, rank', v);
      } else {
        assert s'[v] == s[v];
      }
    }
    hide Ranked, Redirecting, Bind, Unmoved, Domain;
    forall c | Cell(s0, c) ensures Resolve(s', rank', h1, c) == Resolve(s0, r0, h, c) {
      ContinuesAt(s0, r0, h, s, rank, h1, c);
      ResolveLater(s0, r0, s, rank, h1, c);
      ResolveLater(s0, r0, s', rank', h1, c);
      ResolveAgree(s0, r0, Through(s', rank', h1), Through(s, rank, h1), c);
    }
  }

  /** Types under which the name of a recursive definition has one of its types, after redirecting. */
  lemma RecursionReached(s0: Store, r0: seq<nat>, h: Ref -> Type, s1: Store, r1: seq<nat>, s: Store, rank: seq<nat>,
                         h1: Ref -> Type, ng: seq<Ref>, t: Ref, g: Ref, m: map<Ref, Ref>, rank': seq<nat>,
                         types: iset<Type>)
    requires Ranked(s0, r0) && Ranked(s1, r1) && Ranked(s, rank) && Redirecting(s1, r1, s, rank, ng, t, g, m) &&
             InStore(s0, ng) && t >= |s0|
    requires Cell(s, t) && Cell(s, g) && Ranked(Bind(s, t, g), rank') && Evolved(s0, s, rank, Domain(s0, r0, ng)) &&
             Mono(s1, r1, t)
    requires Continues(s0, r0, h, s1, r1, h1) && forall a :: a in types ==> Arrives(s0, r0, h, s1, r1, t, a)
    ensures Continues(s0, r0, h, Bind(s, t, g), rank', h1)
    ensures Cell(Bind(s, t, g), t) && types <= Instances(Bind(s, t, g), rank', h1, t)
  {
    RedirectingFacts(s1, r1, s, rank, ng, t, g, m);
    hide Ranked, Evolved, Continues, Resolve, Instances, CopyMade, Appended, Redirecting, Bind, Arrives, Mono, Domain;
    RedirectedRanked(s1, r1, s, rank, ng, t, g, m);
    ContinuesAppended(s1, r1, h1, s, rank, h1);
    ContinuesTrans(s0, r0, h, s1, r1, h1, s, rank, h1);
    RedirectedContinues(s0, r0, h, s1, r1, s, rank, h1, ng, t, g, m, rank');
    InstancesFound(s0, r0, h, s1, r1, h1, s, rank, ng, t, g, m, types);
    InstancesRedirected(s, rank, t, g, rank', h1);
  }

  lemma RedirectingFacts(s1: Store, r1: seq<nat>, s: Store, rank: seq<nat>, ng: seq<Ref>, t: Ref, g: Ref,
                         m: map<Ref, Ref>)
    requires Ranked(s1, r1) && Ranked(s, rank) && Redirecting(s1, r1, s, rank, ng, t, g, m)
    ensures InStore(s1, ng) && Cell(s1, t) && s[t].kind == Variable && Appended(s1, r1, s, rank)
    ensures CopyMade(s1, r1, Generalisation(s1, r1, ng), s, rank, t, g, m)
  {
  }

  lemma LetRecFound(s0: Store, r0: seq<nat>, s1: Store, r1: seq<nat>, failed1: bool, s2: Store, r2: seq<nat>,
                    s3: Store, r3: seq<nat>, s: Store, rank: seq<nat>, failed: bool, env: TypeEnvironment,
                    ng: seq<Ref>, e: Expr, t: Ref, g: Ref, m: map<Ref, Ref>, tb: Ref)
    requires Ranked(s0, r0) && CellsOf(s0, env) && InStore(s0, ng) && e.LetRec? && t >= |s0|
    requires RecExactly(s0, r0, s1, r1, failed1, env, e.id, e.value_, t) && (failed1 ==> failed)
    requires !failed1 ==>
               && Ranked(s1, r1) && Ranked(s2, r2) && Ranked(s3, r3) && Redirecting(s1, r1, s2, r2, ng, t, g, m) &&
                  Mono(s1, r1, t)
               && Cell(s2, t) && Cell(s2, g) && s3 == Bind(s2, t, g)
               && Evolved(s0, s2, r2, Domain(s0, r0, ng)) && Evolved(s0, s3, r3, Domain(s0, r0, ng)) &&
                  CellsOf(s3, BindType(e.id, t, env))
               && Exactly(s3, r3, s, rank, failed, BindType(e.id, t, env), e.body, tb)
    ensures Exactly(s0, r0, s, rank, failed, env, e, tb)
  {
    hide Ranked, Evolved, Continues, Resolve, Instances, ContextOf, Mono, Redirecting, Bind, Domain;
    forall h: Ref -> Type, a | HasType(ContextOf(s0, r0, h, env), e, a) ensures !failed &&
      Arrives(s0, r0, h, s, rank, tb, a) {
      var types := RecursiveTypes(ContextOf(s0, r0, h, env), e.id, e.value_);
      var a0 :| a0 in types;
      assert HasType(Named(e.id, iset{a0}, ContextOf(s0, r0, h, env)), e.value_, a0);
      assert !failed1 && Arrives(s0, r0, h, s1, r1, t, a0);
      var h1: Ref -> Type :| Continues(s0, r0, h, s1, r1, h1) && Resolve(s1, r1, h1, t) == a0;
      RecursionReached(s0, r0, h, s1, r1, s2, r2, h1, ng, t, g, m, r3, types);
      BodyContext(s0, r0, h, s3, r3, h1, Domain(s0, r0, ng), env, e.id, t, types, e.body, a);
      assert !failed && Arrives(s3, r3, h1, s, rank, tb, a);
      var h2: Ref -> Type :| Continues(s3, r3, h1, s, rank, h2) && Resolve(s, rank, h2, tb) == a;
      ContinuesTrans(s0, r0, h, s3, r3, h1, s, rank, h2);
    }
  }

  /** The same for a variable that is kept: the definition has one type only. */
  lemma KeptFound(s0: Store, r0: seq<nat>, s1: Store, r1: seq<nat>, failed1: bool, s2: Store, r2: seq<nat>, s: Store,
                  rank: seq<nat>, failed: bool, env: TypeEnvironment, ng: seq<Ref>, e: Expr, t: Ref,
                  m: map<Ref, Ref>, tb: Ref)
    requires Ranked(s0, r0) && CellsOf(s0, env) && InStore(s0, ng) && e.LetRec?
    requires RecExactly(s0, r0, s1, r1, failed1, env, e.id, e.value_, t) && (failed1 ==> failed)
    requires !failed1 ==>
               && Ranked(s1, r1) && Ranked(s2, r2) && Keeping(s1, r1, s2, r2, ng, t, m) && Mono(s1, r1, t)
               && Evolved(s0, s2, r2, Domain(s0, r0, ng)) && CellsOf(s2, BindType(e.id, t, env))
               && Exactly(s2, r2, s, rank, failed, BindType(e.id, t, env), e.body, tb)
    ensures Exactly(s0, r0, s, rank, failed, env, e, tb)
  {
    if !failed1 { KeptFacts(s1, r1, s2, r2, ng, t, m); }
    hide Ranked, Evolved, Continues, Resolve, Instances, ContextOf, Mono, Domain, CopyMade, Appended, NonGeneric,
         Covered;
    forall h: Ref -> Type, a | HasType(ContextOf(s0, r0, h, env), e, a) ensures !failed &&
      Arrives(s0, r0, h, s, rank, tb, a) {
      var types := RecursiveTypes(ContextOf(s0, r0, h, env), e.id, e.value_);
      var a0 :| a0 in types;
      assert HasType(Named(e.id, iset{a0}, ContextOf(s0, r0, h, env)), e.value_, a0);
      assert !failed1 && Arrives(s0, r0, h, s1, r1, t, a0);
      var h1: Ref -> Type :| Continues(s0, r0, h, s1, r1, h1) && Resolve(s1, r1, h1, t) == a0;
      ContinuesAppended(s1, r1, h1, s2, r2, h1);
      ContinuesTrans(s0, r0, h, s1, r1, h1, s2, r2, h1);
      InstancesFound(s0, r0, h, s1, r1, h1, s2, r2, ng, t, t, m, types);
      BodyContext(s0, r0, h, s2, r2, h1, Domain(s0, r0, ng), env, e.id, t, types, e.body, a);
      assert !failed && Arrives(s2, r2, h1, s, rank, tb, a);
      var h2: Ref -> Type :| Continues(s2, r2, h1, s, rank, h2) && Resolve(s, rank, h2, tb) == a;
      ContinuesTrans(s0, r0, h, s2, r2, h1, s, rank, h2);
    }
  }
}
