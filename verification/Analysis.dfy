/** What holds between the parts of an analysis: that a type found is right, and that it is the most
    general. */
module Analysis {
  import opened Syntax
  import opened Typing
  import opened TypeCells
  import opened Unification
  import opened Schemes
  import opened Copying
  import opened Memos
  import opened CopySteps
  import opened Inference
  import opened InferenceRules
  import opened RecursiveDefinitions
  import opened Completeness

  /** What an analysis needs. */
  ghost predicate Ready(s: Store, rank: seq<nat>, errors: nat, env: TypeEnvironment, ng: seq<Ref>) {
    && Ranked(s, rank) && CellsOf(s, env) && InStore(s, ng) && (errors == 0 ==> Scope(s, rank, env, ng))
  }

  /** Cells are added, and never become something else. */
  ghost predicate KindsKept(s: Store, s': Store) {
    |s| <= |s'| && forall i :: 0 <= i < |s| ==> s'[i].kind == s[i].kind
  }

  /** What every analysis promises if it comes to an end: a type, which the expression has if there
      has been no error. */
  ghost predicate Analyzed(s0: Store, r0: seq<nat>, s: Store, rank: seq<nat>, errors: nat, env: TypeEnvironment,
                           ng: seq<Ref>, e: Expr, t: Ref) {
    && Ranked(s0, r0) && InStore(s0, ng) && Ranked(s, rank) && KindsKept(s0, s) && Cell(s, t)
    && (errors == 0 ==> Inferred(s0, r0, s, rank, env, ng, e, t))
  }

  lemma StillReady(s0: Store, r0: seq<nat>, errors0: nat, s: Store, rank: seq<nat>, errors: nat,
                   env: TypeEnvironment, ng: seq<Ref>, e: Expr, t: Ref)
    requires Ready(s0, r0, errors0, env, ng) && Analyzed(s0, r0, s, rank, errors, env, ng, e, t) && errors >= errors0
    ensures Ready(s, rank, errors, env, ng)
  {
    CellsLater(s0, s, env);
    if errors == 0 {
      InferredEvolved(s0, r0, s, rank, env, ng, e, t);
      ScopeLater(s0, r0, s, rank, env, ng);
    }
  }

  lemma BothAnalyzed(s0: Store, r0: seq<nat>, s1: Store, r1: seq<nat>, errors1: nat, s: Store, rank: seq<nat>,
                     errors: nat, env: TypeEnvironment, ng: seq<Ref>, e1: Expr, t1: Ref, e2: Expr, t2: Ref)
    requires Analyzed(s0, r0, s1, r1, errors1, env, ng, e1, t1) &&
             Analyzed(s1, r1, s, rank, errors, env, ng, e2, t2) && errors >= errors1
    ensures Analyzed(s0, r0, s, rank, errors, env, ng, e1, t1) && Analyzed(s0, r0, s, rank, errors, env, ng, e2, t2)
    ensures Cell(s, t1) && Cell(s, t2) && Ranked(s0, r0) && InStore(s0, ng)
  {
    if errors == 0 { TwoParts(s0, r0, s1, r1, s, rank, env, ng, e1, t1, e2, t2); }
  }

  /** A part with the error type means that there has been an error. */
  lemma ErrorReported(s0: Store, r0: seq<nat>, s: Store, rank: seq<nat>, errors: nat, env: TypeEnvironment,
                      ng: seq<Ref>, e: Expr, t: Ref)
    requires Analyzed(s0, r0, s, rank, errors, env, ng, e, t) && s[t].kind == ErrorKind
    ensures errors > 0
  {
    if errors == 0 { InferredEvolved(s0, r0, s, rank, env, ng, e, t); }
  }

  lemma FailedAnalysis(s0: Store, r0: seq<nat>, s: Store, rank: seq<nat>, errors: nat, env: TypeEnvironment,
                       ng: seq<Ref>, e: Expr, t: Ref, whole: Expr)
    requires Analyzed(s0, r0, s, rank, errors, env, ng, e, t) && errors > 0
    ensures Analyzed(s0, r0, s, rank, errors, env, ng, whole, ERROR)
  {
  }

  lemma ApplyAnalyzed(s0: Store, r0: seq<nat>, s2: Store, r2: seq<nat>, s3: Store, r3: seq<nat>, errors3: nat,
                      s: Store, rank: seq<nat>, errors: nat, env: TypeEnvironment, ng: seq<Ref>, e: Expr, tf: Ref,
                      ta: Ref)
    requires e.Apply? && Analyzed(s0, r0, s2, r2, errors3, env, ng, e.function_, tf) &&
             Analyzed(s0, r0, s2, r2, errors3, env, ng, e.argument, ta)
    requires Ranked(s0, r0) && InStore(s0, ng) && Ranked(s2, r2) && |s2| == |r2| && Ranked(s3, r3) &&
             Ranked(s, rank) && |s| == |s3| && errors >= errors3
    requires Cell(s2, ta) && Cell(s2, tf) && s3 == s2 + [VARIABLE] + [TypeExp(Func, ta, |s2|)] &&
             r3 == r2 + [1] + [r2[ta] + 1 + 1]
    requires Unified(s3, r3, s, rank, |s2| + 1, tf, Domain(s0, r0, ng), errors > errors3)
    ensures Analyzed(s0, r0, s, rank, errors, env, ng, e, |s2|)
  {
    hide Ranked, Simple, Unified, Evolved, Inferred, Domain, KindsKept, Unbound;
    ApplyKinds(s0, s2, s3, TypeExp(Func, ta, |s2|));
    UnifiedKinds(s0, s3, r3, s, rank, |s2| + 1, tf, Domain(s0, r0, ng), errors > errors3);
    if errors == 0 { ApplyInferred(s0, r0, s2, r2, s3, r3, s, rank, env, ng, e.function_, e.argument, tf, ta); }
  }

  lemma ApplyInferred(s0: Store, r0: seq<nat>, s2: Store, r2: seq<nat>, s3: Store, r3: seq<nat>, s: Store,
                      rank: seq<nat>, env: TypeEnvironment, ng: seq<Ref>, f: Expr, a: Expr, tf: Ref, ta: Ref)
    requires Ranked(s0, r0) && InStore(s0, ng) && Ranked(s2, r2) && |s2| == |r2| && |s2| >= |s0| && Cell(s2, ta) &&
             Cell(s2, tf)
    requires Inferred(s0, r0, s2, r2, env, ng, f, tf) && Inferred(s0, r0, s2, r2, env, ng, a, ta)
    requires s3 == s2 + [VARIABLE] + [TypeExp(Func, ta, |s2|)] && r3 == r2 + [1] + [r2[ta] + 1 + 1]
    requires Ranked(s3, r3) && Ranked(s, rank) && |s| == |s3|
    requires Unified(s3, r3, s, rank, |s2| + 1, tf, Domain(s0, r0, ng), false)
    ensures Inferred(s0, r0, s, rank, env, ng, Apply(f, a), |s2|)
  {
    hide Ranked, Simple, Unified, Evolved, Inferred, Domain;
    CalleeType(s0, r0, s2, r2, env, ng, f, a, tf, ta);
    InferApply(s0, r0, s3, r3, s, rank, env, ng, f, a, tf, ta, |s2|, |s2| + 1);
  }

  lemma ApplyKinds(s0: Store, s2: Store, s3: Store, c: TypeExp)
    requires KindsKept(s0, s2) && s3 == s2 + [VARIABLE] + [c]
    ensures KindsKept(s0, s3) && |s2| >= |s0|
  {
  }

  /** The type a callee must have: from that of the argument to a new variable. */
  lemma CalleeType(s0: Store, r0: seq<nat>, s2: Store, r2: seq<nat>, env: TypeEnvironment, ng: seq<Ref>, f: Expr,
                   a: Expr, tf: Ref, ta: Ref)
    requires Ranked(s0, r0) && InStore(s0, ng) && Ranked(s2, r2) && |s2| == |r2| && |s2| >= |s0| && Cell(s2, ta)
    requires Inferred(s0, r0, s2, r2, env, ng, f, tf) && Inferred(s0, r0, s2, r2, env, ng, a, ta)
    ensures var s3, r3, d := s2 + [VARIABLE] + [TypeExp(Func, ta, |s2|)], r2 + [1] + [r2[ta] + 1 + 1],
            Domain(s0, r0, ng);
            && Ranked(s3, r3) && Inferred(s0, r0, s3, r3, env, ng, f, tf) && Inferred(s0, r0, s3, r3, env, ng, a, ta)
            && Simple(s3, r3, |s2|, d) && Simple(s3, r3, |s2| + 1, d)
  {
    hide Ranked, Simple, Evolved, Inferred, Domain;
    var d, v := Domain(s0, r0, ng), |s2|;
    var s', r' := s2 + [VARIABLE], r2 + [1];
    NewInDomain(s0, r0, ng, v);
    NewVariable(s2, r2, d);
    InferredLater(s0, r0, s2, r2, s', r', env, ng, f, tf);
    InferredLater(s0, r0, s2, r2, s', r', env, ng, a, ta);
    InferredEvolved(s0, r0, s', r', env, ng, a, ta);
    NewType(s', r', Func, ta, v, r2[ta] + 1 + 1, d);
    InferredLater(s0, r0, s', r', s' + [TypeExp(Func, ta, v)], r' + [r2[ta] + 1 + 1], env, ng, f, tf);
    InferredLater(s0, r0, s', r', s' + [TypeExp(Func, ta, v)], r' + [r2[ta] + 1 + 1], env, ng, a, ta);
  }

  lemma ReadyFacts(s: Store, rank: seq<nat>, errors: nat, env: TypeEnvironment, ng: seq<Ref>)
    requires Ready(s, rank, errors, env, ng)
    ensures Ranked(s, rank) && |rank| == |s| && CellsOf(s, env) && InStore(s, ng)
  {
  }

  lemma AnalyzedFacts(s0: Store, r0: seq<nat>, s: Store, rank: seq<nat>, errors: nat, env: TypeEnvironment,
                      ng: seq<Ref>, e: Expr, t: Ref)
    requires Analyzed(s0, r0, s, rank, errors, env, ng, e, t)
    ensures Ranked(s0, r0) && |r0| == |s0| && InStore(s0, ng) && Ranked(s, rank) && |rank| == |s| && |s| >= |s0| &&
            Cell(s, t) && InStore(s, ng)
    ensures Cell(s, INTEGER) && Cell(s, BOOLEAN) && Cell(s, ERROR)
  {
  }

  lemma ParameterReady(s0: Store, r0: seq<nat>, errors: nat, env: TypeEnvironment, ng: seq<Ref>, id: Symbol)
    requires Ready(s0, r0, errors, env, ng)
    ensures Ready(s0 + [VARIABLE], r0 + [1], errors, BindType(id, |s0|, env), [|s0|] + ng)
  {
    AddRanked(s0, r0, VARIABLE, 1);
    CellsLater(s0, s0 + [VARIABLE], env);
    forall k | 0 <= k < |ng| + 1 ensures Cell(s0 + [VARIABLE], ([|s0|] + ng)[k]) {}
    if errors == 0 { EnterParameter(s0, r0, env, ng, id); }
  }

  lemma VariableKinds(s0: Store, s: Store, c: TypeExp)
    requires KindsKept(s0 + [c], s)
    ensures KindsKept(s0, s)
  {
    forall i | 0 <= i < |s0| ensures s[i].kind == s0[i].kind { assert (s0 + [c])[i] == s0[i]; }
  }

  lemma LambdaAnalyzed(s0: Store, r0: seq<nat>, errors0: nat, s: Store, rank: seq<nat>, errors: nat, s': Store,
                       rank': seq<nat>, env: TypeEnvironment, ng: seq<Ref>, e: Expr, tb: Ref)
    requires e.Lambda? && Ready(s0, r0, errors0, env, ng) && errors >= errors0
    requires Analyzed(s0 + [VARIABLE], r0 + [1], s, rank, errors, BindType(e.param, |s0|, env), [|s0|] + ng, e.body, tb)
    requires |rank| == |s| && Cell(s, tb) && Cell(s, |s0|) && Ranked(s', rank')
    requires s' == s + [TypeExp(Func, |s0|, tb)] && rank' == rank + [rank[|s0|] + rank[tb] + 1]
    ensures Analyzed(s0, r0, s', rank', errors, env, ng, e, |s|)
  {
    hide Inferred, Ranked, Scope, KindsKept;
    AddedKinds(s0 + [VARIABLE], s, TypeExp(Func, |s0|, tb));
    VariableKinds(s0, s', VARIABLE);
    if errors == 0 {
      InferLambda(s0, r0, s0 + [VARIABLE], r0 + [1], s, rank, rank[|s0|] + rank[tb] + 1, env, ng, e.param, e.body, tb);
    }
  }

  lemma IdentifierAnalyzed(s0: Store, r0: seq<nat>, s: Store, rank: seq<nat>, errors: nat, env: TypeEnvironment,
                           ng: seq<Ref>, e: Expr, t: Ref, m: map<Ref, Ref>)
    requires e.Identifier? && Ready(s0, r0, errors, env, ng) && Ranked(s0, r0) && Ranked(s, rank) &&
             LookUp(env, e.id) != NULL
    requires Cell(s, t) && Cell(s0, LookUp(env, e.id)) &&
             CopyMade(s0, r0, INSTANTIATION, s, rank, LookUp(env, e.id), t, m)
    ensures Analyzed(s0, r0, s, rank, errors, env, ng, e, t)
  {
    if errors == 0 { InferIdentifier(s0, r0, s, rank, env, ng, e.id, t, m); }
  }

  lemma UnifiedKinds(s0: Store, s: Store, rank: seq<nat>, s': Store, rank': seq<nat>, one: Ref, two: Ref,
                     d: iset<Ref>, failed: bool)
    requires KindsKept(s0, s) && Ranked(s, rank) && Ranked(s', rank') && Cell(s, one) && Cell(s, two)
    requires Unified(s, rank, s', rank', one, two, d, failed)
    ensures KindsKept(s0, s') && |s'| == |s|
  {
  }

  lemma AddedKinds(s0: Store, s: Store, c: TypeExp)
    requires KindsKept(s0, s)
    ensures KindsKept(s0, s + [c])
  {
  }

  lemma LetReady(s0: Store, r0: seq<nat>, errors0: nat, s1: Store, r1: seq<nat>, s: Store, rank: seq<nat>, errors: nat,
                 env: TypeEnvironment, ng: seq<Ref>, e: Expr, t: Ref, g: Ref, m: map<Ref, Ref>)
    requires e.Let? && Ready(s0, r0, errors0, env, ng) && Analyzed(s0, r0, s1, r1, errors, env, ng, e.value_, t) &&
             errors >= errors0
    requires Ranked(s1, r1) && Ranked(s, rank) && InStore(s1, ng) &&
             CopyMade(s1, r1, Generalisation(s1, r1, ng), s, rank, t, g, m)
    ensures Ready(s, rank, errors, BindType(e.id, g, env), ng)
  {
    hide Inferred, Generalisation;
    CellsLater(s0, s, env);
    if errors == 0 { EnterDefinition(s0, r0, s1, r1, s, rank, env, ng, e.id, e.value_, t, g, m); }
  }

  lemma LetAnalyzed(s0: Store, r0: seq<nat>, errors0: nat, s1: Store, r1: seq<nat>, s2: Store, r2: seq<nat>,
                    errors2: nat, s: Store, rank: seq<nat>, errors: nat, env: TypeEnvironment, ng: seq<Ref>, e: Expr,
                    t: Ref, g: Ref, m: map<Ref, Ref>, tb: Ref)
    requires e.Let? && Ready(s0, r0, errors0, env, ng) && Analyzed(s0, r0, s1, r1, errors2, env, ng, e.value_, t)
    requires errors >= errors2 >= errors0 && Ranked(s1, r1) && Ranked(s2, r2) && InStore(s1, ng)
    requires CopyMade(s1, r1, Generalisation(s1, r1, ng), s2, r2, t, g, m)
    requires Analyzed(s2, r2, s, rank, errors, BindType(e.id, g, env), ng, e.body, tb)
    ensures Analyzed(s0, r0, s, rank, errors, env, ng, e, tb)
  {
    hide Inferred, Generalisation;
    if errors == 0 { InferLet(s0, r0, s1, r1, s2, r2, s, rank, env, ng, e.id, e.value_, e.body, t, g, m, tb); }
  }

  // A recursive definition, up to redirecting its variable.

  /** The definition has been analysed and its type unified with that of its name. */
  ghost predicate Defined(s0: Store, r0: seq<nat>, s: Store, rank: seq<nat>, errors: nat, env: TypeEnvironment,
                          ng: seq<Ref>, e: Expr) {
    && e.LetRec? && Ranked(s0, r0) && InStore(s0, ng) && Ranked(s, rank) && |s| > |s0| && s[|s0|].kind == Variable &&
       KindsKept(s0, s)
    && (errors == 0 ==> RecInferred(s0, r0, s, rank, env, ng, e.id, e.value_, |s0|))
  }

  lemma RecUnified(s0: Store, r0: seq<nat>, errors0: nat, sa: Store, ra: seq<nat>, sb: Store, rb: seq<nat>,
                   errorsb: nat, s: Store, rank: seq<nat>, errors: nat, env: TypeEnvironment, ng: seq<Ref>, e: Expr,
                   t: Ref)
    requires e.LetRec? && Ready(s0, r0, errors0, env, ng) && sa == s0 + [VARIABLE] && ra == r0 + [1]
    requires Analyzed(sa, ra, sb, rb, errorsb, BindType(e.id, |s0|, env), [|s0|] + ng, e.value_, t) &&
             errors >= errorsb >= errors0
    requires Ranked(sb, rb) && Ranked(s, rank) && Cell(sb, |s0|) && Cell(sb, t) && Ranked(sa, ra) &&
             InStore(sa, [|s0|] + ng)
    requires Unified(sb, rb, s, rank, |s0|, t, Domain(sa, ra, [|s0|] + ng), errors > errorsb)
    ensures Defined(s0, r0, s, rank, errors, env, ng, e)
  {
    hide Inferred, RecInferred, Domain;
    if errors == 0 { DefinitionInferred(s0, r0, sa, ra, sb, rb, s, rank, env, ng, e.id, e.value_, t); }
  }

  lemma SettledFacts(s0: Store, r0: seq<nat>, s1: Store, r1: seq<nat>, s2: Store, r2: seq<nat>, errors: nat,
                     env: TypeEnvironment, ng: seq<Ref>, e: Expr, g: Ref, m: map<Ref, Ref>)
    requires Defined(s0, r0, s1, r1, errors, env, ng, e) && Ranked(s2, r2) && |s2| >= |s1|
    requires Ranked(s1, r1) && InStore(s1, ng) && CopyMade(s1, r1, Generalisation(s1, r1, ng), s2, r2, |s0|, g, m)
    ensures Cell(s1, |s0|) && s1[|s0|].kind == Variable && InStore(s2, ng)
    ensures if g != |s0| then Redirecting(s1, r1, s2, r2, ng, |s0|, g, m) else Keeping(s1, r1, s2, r2, ng, |s0|, m)
  {
    SelfLinkExact(s1, r1, s2, r2, ng, |s0|, g, m);
  }

  lemma RecReady(s0: Store, r0: seq<nat>, errors0: nat, s1: Store, r1: seq<nat>, s2: Store, r2: seq<nat>, s3: Store,
                 r3: seq<nat>, errors: nat, env: TypeEnvironment, ng: seq<Ref>, e: Expr, g: Ref, m: map<Ref, Ref>)
    requires Ready(s0, r0, errors0, env, ng) && Defined(s0, r0, s1, r1, errors, env, ng, e) && errors >= errors0
    requires Ranked(s1, r1) && Ranked(s2, r2) && Ranked(s3, r3) && Redirecting(s1, r1, s2, r2, ng, |s0|, g, m)
    requires Cell(s2, |s0|) && Cell(s2, g) && s3 == Bind(s2, |s0|, g)
    ensures Ready(s3, r3, errors, BindType(e.id, |s0|, env), ng)
  {
    hide RecInferred, Redirecting;
    RedirectedKinds(s0, s1, r1, s2, r2, ng, |s0|, g, m);
    CellsLater(s0, s3, env);
    if errors == 0 { EnterRecursion(s0, r0, s1, r1, s2, r2, env, ng, e.id, e.value_, |s0|, g, m, r3); }
  }

  lemma RedirectedKinds(s0: Store, s1: Store, r1: seq<nat>, s2: Store, r2: seq<nat>, ng: seq<Ref>, t: Ref, g: Ref,
                        m: map<Ref, Ref>)
    requires Ranked(s1, r1) && Ranked(s2, r2) && Redirecting(s1, r1, s2, r2, ng, t, g, m) && Cell(s2, t) &&
             KindsKept(s0, s1)
    ensures KindsKept(s0, Bind(s2, t, g)) && |Bind(s2, t, g)| == |s2|
  {
  }

  lemma RecAnalyzed(s0: Store, r0: seq<nat>, errors0: nat, s1: Store, r1: seq<nat>, s2: Store, r2: seq<nat>,
                    s3: Store, r3: seq<nat>, errors3: nat, s: Store, rank: seq<nat>, errors: nat,
                    env: TypeEnvironment, ng: seq<Ref>, e: Expr, g: Ref, m: map<Ref, Ref>, tb: Ref)
    requires Ready(s0, r0, errors0, env, ng) && Defined(s0, r0, s1, r1, errors3, env, ng, e) &&
             errors >= errors3 >= errors0
    requires Ranked(s1, r1) && Ranked(s2, r2) && Ranked(s3, r3) && Redirecting(s1, r1, s2, r2, ng, |s0|, g, m)
    requires Cell(s2, |s0|) && Cell(s2, g) && s3 == Bind(s2, |s0|, g)
    requires Analyzed(s3, r3, s, rank, errors, BindType(e.id, |s0|, env), ng, e.body, tb)
    ensures Analyzed(s0, r0, s, rank, errors, env, ng, e, tb)
  {
    hide RecInferred, Redirecting, Inferred, Bind;
    RedirectedKinds(s0, s1, r1, s2, r2, ng, |s0|, g, m);
    if errors == 0 {
      InferLetRec(s0, r0, s1, r1, s2, r2, s3, r3, s, rank, env, ng, e.id, e.value_, e.body, |s0|, g, m, tb);
    }
  }

  // The parts of a conditional.

  lemma TestAnalyzed(s0: Store, r0: seq<nat>, errors0: nat, s1: Store, r1: seq<nat>, errors1: nat, s: Store,
                     rank: seq<nat>, errors: nat, env: TypeEnvironment, ng: seq<Ref>, e: Expr, t: Ref)
    requires Ready(s0, r0, errors0, env, ng) && Analyzed(s0, r0, s1, r1, errors1, env, ng, e, t) &&
             errors >= errors1 >= errors0
    requires Ranked(s0, r0) && InStore(s0, ng) && Ranked(s1, r1) && Ranked(s, rank) && Cell(s1, t) &&
             Cell(s1, BOOLEAN) && |s| == |s1|
    requires Unified(s1, r1, s, rank, t, BOOLEAN, Domain(s0, r0, ng), errors > errors1)
    ensures Ready(s, rank, errors, env, ng) && Analyzed(s0, r0, s, rank, errors, env, ng, e, t)
    ensures Cell(s, t) && (errors == 0 ==> forall free: Ref -> Type :: Resolve(s, rank, free, t) == TBool)
  {
    hide Inferred, Unified, Domain, Evolved, Simple, KindsKept, Ranked, Resolve;
    UnifiedKinds(s0, s1, r1, s, rank, t, BOOLEAN, Domain(s0, r0, ng), errors > errors1);
    if errors == 0 {
      InferredEvolved(s0, r0, s1, r1, env, ng, e, t);
      UnifiedStatic(s0, r0, s1, r1, s, rank, t, BOOLEAN, Domain(s0, r0, ng));
      InferredLater(s0, r0, s1, r1, s, rank, env, ng, e, t);
    }
    StillReady(s0, r0, errors0, s, rank, errors, env, ng, e, t);
  }

  lemma BranchesAnalyzed(s0: Store, r0: seq<nat>, s2: Store, r2: seq<nat>, errors2: nat, s3: Store, r3: seq<nat>,
                         errors3: nat, s: Store, rank: seq<nat>, errors: nat, env: TypeEnvironment, ng: seq<Ref>,
                         e: Expr, tt: Ref, ta: Ref, tb: Ref)
    requires e.If? && Analyzed(s0, r0, s2, r2, errors2, env, ng, e.test, tt) && errors >= errors3 >= errors2
    requires Ranked(s2, r2) && Cell(s2, tt) &&
             (errors2 == 0 ==> forall free: Ref -> Type :: Resolve(s2, r2, free, tt) == TBool)
    requires Analyzed(s2, r2, s3, r3, errors3, env, ng, e.then_, ta) &&
             Analyzed(s3, r3, s, rank, errors, env, ng, e.else_, tb)
    ensures Ranked(s0, r0) && InStore(s0, ng) && Ranked(s, rank) && Cell(s, tt) && Cell(s, ta) && Cell(s, tb)
    ensures Analyzed(s0, r0, s, rank, errors, env, ng, e.test, tt)
    ensures Analyzed(s0, r0, s, rank, errors, env, ng, e.then_, ta) &&
            Analyzed(s0, r0, s, rank, errors, env, ng, e.else_, tb)
    ensures errors == 0 ==> forall free: Ref -> Type :: Resolve(s, rank, free, tt) == TBool
  {
    hide Inferred, Resolve;
    BothAnalyzed(s0, r0, s2, r2, errors2, s3, r3, errors3, env, ng, e.test, tt, e.then_, ta);
    BothAnalyzed(s0, r0, s3, r3, errors3, s, rank, errors, env, ng, e.test, tt, e.else_, tb);
    BothAnalyzed(s0, r0, s3, r3, errors3, s, rank, errors, env, ng, e.then_, ta, e.else_, tb);
    if errors == 0 {
      TwoParts(s2, r2, s3, r3, s, rank, env, ng, e.then_, ta, e.else_, tb);
      InferredEvolved(s2, r2, s, rank, env, ng, e.else_, tb);
      SettledLater(s2, r2, s, rank, tt, TBool);
    }
  }

  lemma IfAnalyzed(s0: Store, r0: seq<nat>, s4: Store, r4: seq<nat>, errors4: nat, s: Store, rank: seq<nat>,
                   errors: nat, env: TypeEnvironment, ng: seq<Ref>, e: Expr, tt: Ref, ta: Ref, tb: Ref)
    requires e.If? && Analyzed(s0, r0, s4, r4, errors4, env, ng, e.test, tt) && errors >= errors4 && |s| == |s4|
    requires Analyzed(s0, r0, s4, r4, errors4, env, ng, e.then_, ta) &&
             Analyzed(s0, r0, s4, r4, errors4, env, ng, e.else_, tb)
    requires Ranked(s4, r4) && Cell(s4, tt) && Cell(s4, ta) && Cell(s4, tb) && Ranked(s0, r0) && InStore(s0, ng) &&
             Ranked(s, rank)
    requires errors4 == 0 ==> forall free: Ref -> Type :: Resolve(s4, r4, free, tt) == TBool
    requires Unified(s4, r4, s, rank, ta, tb, Domain(s0, r0, ng), errors > errors4)
    ensures Analyzed(s0, r0, s, rank, errors, env, ng, e, ta)
  {
    hide Inferred, Unified, Domain, Resolve, KindsKept, Ranked;
    UnifiedKinds(s0, s4, r4, s, rank, ta, tb, Domain(s0, r0, ng), errors > errors4);
    if errors == 0 {
      InferredEvolved(s0, r0, s4, r4, env, ng, e.then_, ta);
      InferredEvolved(s0, r0, s4, r4, env, ng, e.else_, tb);
      InferIf(s0, r0, s4, r4, s, rank, env, ng, e.test, e.then_, e.else_, tt, ta, tb);
    }
  }

  // The operands of an operator.

  /** One operand has been unified with the type of numbers. */
  lemma OperandAnalyzed(s0: Store, r0: seq<nat>, s1: Store, r1: seq<nat>, errors1: nat, s: Store, rank: seq<nat>,
                        errors: nat, env: TypeEnvironment, ng: seq<Ref>, l: Expr, tl: Ref, r: Expr, tr: Ref, t: Ref)
    requires Analyzed(s0, r0, s1, r1, errors1, env, ng, l, tl) && Analyzed(s0, r0, s1, r1, errors1, env, ng, r, tr) &&
             errors >= errors1
    requires t in {tl, tr} && Ranked(s0, r0) && InStore(s0, ng) && Ranked(s1, r1) && Ranked(s, rank) && Cell(s1, t) &&
             Cell(s1, INTEGER) && |s| == |s1|
    requires Unified(s1, r1, s, rank, t, INTEGER, Domain(s0, r0, ng), errors > errors1)
    ensures Analyzed(s0, r0, s, rank, errors, env, ng, l, tl) && Analyzed(s0, r0, s, rank, errors, env, ng, r, tr)
    ensures Cell(s, t) &&
            (errors == 0 ==> Later(s1, s) && forall free: Ref -> Type :: Resolve(s, rank, free, t) == TInt)
  {
    hide Inferred, Unified, Domain, Simple, KindsKept, Ranked, Resolve;
    UnifiedKinds(s0, s1, r1, s, rank, t, INTEGER, Domain(s0, r0, ng), errors > errors1);
    if errors == 0 {
      InferredEvolved(s0, r0, s1, r1, env, ng, l, tl);
      InferredEvolved(s0, r0, s1, r1, env, ng, r, tr);
      UnifiedStatic(s0, r0, s1, r1, s, rank, t, INTEGER, Domain(s0, r0, ng));
      InferredLater(s0, r0, s1, r1, s, rank, env, ng, l, tl);
      InferredLater(s0, r0, s1, r1, s, rank, env, ng, r, tr);
    }
  }

  lemma BinaryAnalyzed(s0: Store, r0: seq<nat>, s1: Store, r1: seq<nat>, errors1: nat, s: Store, rank: seq<nat>,
                       errors: nat, env: TypeEnvironment, ng: seq<Ref>, e: Expr, tl: Ref, tr: Ref)
    requires e.Binary? && Analyzed(s0, r0, s1, r1, errors1, env, ng, e.left, tl) &&
             Analyzed(s0, r0, s1, r1, errors1, env, ng, e.right, tr)
    requires errors >= errors1 && Ranked(s0, r0) && InStore(s0, ng) && Ranked(s1, r1) && Ranked(s, rank) &&
             Cell(s1, tl) && Cell(s1, tr) && |s| == |s1|
    requires errors1 == 0 && e.bop != Equals ==> forall free: Ref -> Type :: Resolve(s1, r1, free, tl) == TInt
    requires Unified(s1, r1, s, rank, tl, tr, Domain(s0, r0, ng), errors > errors1)
    ensures Analyzed(s0, r0, s, rank, errors, env, ng, e, if e.bop == Equals then BOOLEAN else INTEGER)
  {
    ErrorIsCell(s, rank);
    hide Inferred, Unified, Domain, Simple, KindsKept, Ranked, Resolve;
    UnifiedKinds(s0, s1, r1, s, rank, tl, tr, Domain(s0, r0, ng), errors > errors1);
    if errors == 0 {
      InferredEvolved(s0, r0, s1, r1, env, ng, e.left, tl);
      InferredEvolved(s0, r0, s1, r1, env, ng, e.right, tr);
      UnifiedEvolved(s0, r0, s1, r1, s, rank, tl, tr, Domain(s0, r0, ng));
      InferredLater(s0, r0, s1, r1, s, rank, env, ng, e.left, tl);
      InferredLater(s0, r0, s1, r1, s, rank, env, ng, e.right, tr);
      if e.bop != Equals { SettledLater(s1, r1, s, rank, tl, TInt); }
      InferOperator(s0, r0, s, rank, env, ng, e.bop, e.left, e.right, tl, tr);
    }
  }

  lemma UnaryAnalyzed(s0: Store, r0: seq<nat>, s: Store, rank: seq<nat>, errors: nat, env: TypeEnvironment,
                      ng: seq<Ref>, e: Expr, t: Ref)
    requires e.Unary? && Analyzed(s0, r0, s, rank, errors, env, ng, e.arg, t)
    ensures Analyzed(s0, r0, s, rank, errors, env, ng, e, t)
  {
    hide Inferred;
    if errors == 0 { InferUnary(s0, r0, s, rank, env, ng, e.uop, e.arg, t); }
  }

  lemma ConstantAnalyzed(s: Store, rank: seq<nat>, errors: nat, env: TypeEnvironment, ng: seq<Ref>, e: Expr)
    requires (e.Literal? || e.True? || e.False?) && Ready(s, rank, errors, env, ng)
    ensures Analyzed(s, rank, s, rank, errors, env, ng, e, if e.Literal? then INTEGER else BOOLEAN)
  {
    hide Inferred;
    InferConstant(s, rank, env, ng, e);
  }

  lemma ErrorAnalyzed(s: Store, rank: seq<nat>, errors: nat, env: TypeEnvironment, ng: seq<Ref>, e: Expr)
    requires Ready(s, rank, errors, env, ng)
    ensures Analyzed(s, rank, s, rank, errors + 1, env, ng, e, ERROR)
  {
  }

  lemma TupleAnalyzed(s0: Store, r0: seq<nat>, s: Store, rank: seq<nat>, errors: nat, s': Store, rank': seq<nat>,
                      env: TypeEnvironment, ng: seq<Ref>, e: Expr, tf: Ref, tr: Ref)
    requires e.Tuple? && Analyzed(s0, r0, s, rank, errors, env, ng, e.first, tf) &&
             Analyzed(s0, r0, s, rank, errors, env, ng, e.rest, tr)
    requires |rank| == |s| && Cell(s, tf) && Cell(s, tr) && Ranked(s', rank')
    requires s' == s + [TypeExp(TupleKind, tf, tr)] && rank' == rank + [rank[tf] + rank[tr] + 1]
    ensures Analyzed(s0, r0, s', rank', errors, env, ng, e, |s|)
  {
    hide Inferred;
    if errors == 0 { InferTuple(s0, r0, s, rank, rank[tf] + rank[tr] + 1, env, ng, e.first, e.rest, e.length, tf, tr); }
  }

  lemma TupleFinalAnalyzed(s0: Store, r0: seq<nat>, s: Store, rank: seq<nat>, errors: nat, s': Store, rank': seq<nat>,
                           env: TypeEnvironment, ng: seq<Ref>, e: Expr, tf: Ref)
    requires e.TupleFinal? && Analyzed(s0, r0, s, rank, errors, env, ng, e.first, tf)
    requires |rank| == |s| && Cell(s, tf) && Ranked(s', rank')
    requires s' == s + [TypeExp(FinalKind, tf, NULL)] && rank' == rank + [rank[tf] + 1]
    ensures Analyzed(s0, r0, s', rank', errors, env, ng, e, |s|)
  {
    hide Inferred;
    if errors == 0 { InferTupleFinal(s0, r0, s, rank, rank[tf] + 1, env, ng, e.first, tf); }
  }

  lemma NewInDomain(s: Store, rank: seq<nat>, ng: seq<Ref>, v: Ref)
    requires Ranked(s, rank) && InStore(s, ng) && v >= |s|
    ensures v in Domain(s, rank, ng)
  {
  }

  lemma ErrorIsCell(s: Store, rank: seq<nat>)
    requires Ranked(s, rank)
    ensures Cell(s, ERROR)
  {
  }

  // ----- Most general types -----

  /** What every analysis that starts without an error promises besides: it reports one exactly if
      the expression has no type, and otherwise every type is an instance of the one it finds. */
  ghost predicate Exact(s0: Store, r0: seq<nat>, errors0: nat, s: Store, rank: seq<nat>, errors: nat,
                        env: TypeEnvironment, e: Expr, t: Ref) {
    errors0 == 0 ==> Ranked(s0, r0) && CellsOf(s0, env) && Exactly(s0, r0, s, rank, errors > 0, env, e, t)
  }

  ghost predicate BothExact(s0: Store, r0: seq<nat>, errors0: nat, s: Store, rank: seq<nat>, errors: nat,
                            env: TypeEnvironment, e1: Expr, t1: Ref, e2: Expr, t2: Ref) {
    errors0 == 0 ==> Ranked(s0, r0) && CellsOf(s0, env) && BothExactly(s0, r0, s, rank, errors > 0, env, e1, t1, e2, t2)
  }

  ghost predicate PartsExact(s0: Store, r0: seq<nat>, errors0: nat, s: Store, rank: seq<nat>, errors: nat,
                             env: TypeEnvironment, e: Expr, t1: Ref, t2: Ref) {
    errors0 == 0 ==> Ranked(s0, r0) && CellsOf(s0, env) && PartsExactly(s0, r0, s, rank, errors > 0, env, e, t1, t2)
  }

  lemma BothAreExact(s0: Store, r0: seq<nat>, errors0: nat, s1: Store, r1: seq<nat>, errors1: nat, s: Store,
                     rank: seq<nat>, errors: nat, env: TypeEnvironment, ng: seq<Ref>, e1: Expr, t1: Ref, e2: Expr,
                     t2: Ref)
    requires errors >= errors1 >= errors0 && Analyzed(s0, r0, s1, r1, errors1, env, ng, e1, t1) &&
             Analyzed(s1, r1, s, rank, errors, env, ng, e2, t2)
    requires Exact(s0, r0, errors0, s1, r1, errors1, env, e1, t1) &&
             Exact(s1, r1, errors1, s, rank, errors, env, e2, t2)
    ensures BothExact(s0, r0, errors0, s, rank, errors, env, e1, t1, e2, t2)
  {
    hide Inferred, Exactly, BothExactly, Ranked, Evolved;
    if errors0 == 0 {
      if errors1 == 0 { InferredEvolved(s0, r0, s1, r1, env, ng, e1, t1); }
      BothFound(s0, r0, s1, r1, errors1 > 0, s, rank, errors > 0, Domain(s0, r0, ng), env, e1, t1, e2, t2);
    }
  }

  lemma PartsAreExact(s0: Store, r0: seq<nat>, errors0: nat, s1: Store, r1: seq<nat>, errors1: nat, s: Store,
                      rank: seq<nat>, errors: nat, env: TypeEnvironment, ng: seq<Ref>, e: Expr, t1: Ref, t2: Ref)
    requires errors >= errors1 >= errors0
    requires Analyzed(s0, r0, s1, r1, errors1, env, ng, First(e), t1) &&
             Analyzed(s1, r1, s, rank, errors, env, ng, Second(e), t2)
    requires Exact(s0, r0, errors0, s1, r1, errors1, env, First(e), t1) &&
             Exact(s1, r1, errors1, s, rank, errors, env, Second(e), t2)
    ensures PartsExact(s0, r0, errors0, s, rank, errors, env, e, t1, t2)
  {
    hide Analyzed, Exact, BothExactly, Ranked, First, Second, PartsExactly;
    BothAreExact(s0, r0, errors0, s1, r1, errors1, s, rank, errors, env, ng, First(e), t1, Second(e), t2);
    if errors0 == 0 { PartsFound(s0, r0, s, rank, errors > 0, env, e, t1, t2); }
  }

  /** What is unified for the parts of a conditional or of an operator to fit. */
  predicate ToUnify(e: Expr, t1: Ref, t2: Ref, one: Ref, two: Ref) {
    || ((e.If? || e.Binary?) && one == t1 && two == t2)
    || (e.Binary? && e.bop != Equals && one in {t1, t2} && two == INTEGER)
  }

  lemma ToUnifyFits(s: Store, rank: seq<nat>, e: Expr, t1: Ref, t2: Ref, one: Ref, two: Ref)
    requires Ranked(s, rank) && Cell(s, t1) && Cell(s, t2) && ToUnify(e, t1, t2, one, two)
    ensures Cell(s, two) && EqualWhenFit(s, rank, e, t1, t2, one, two)
  {
    StaticSimple(s, rank, INTEGER, iset{});
    hide Ranked, Resolve;
  }

  lemma UnifyIsExact(s0: Store, r0: seq<nat>, errors0: nat, s1: Store, r1: seq<nat>, errors1: nat, s: Store,
                     rank: seq<nat>, errors: nat, env: TypeEnvironment, ng: seq<Ref>, e: Expr, t1: Ref, t2: Ref,
                     one: Ref, two: Ref)
    requires errors >= errors1 >= errors0 && PartsExact(s0, r0, errors0, s1, r1, errors1, env, e, t1, t2) &&
             ToUnify(e, t1, t2, one, two)
    requires Analyzed(s0, r0, s1, r1, errors1, env, ng, First(e), t1) &&
             Analyzed(s0, r0, s1, r1, errors1, env, ng, Second(e), t2)
    requires Ranked(s0, r0) && InStore(s0, ng) && Ranked(s1, r1) && Ranked(s, rank) && Cell(s1, one) && Cell(s1, two)
    requires Unified(s1, r1, s, rank, one, two, Domain(s0, r0, ng), errors > errors1)
    ensures PartsExact(s0, r0, errors0, s, rank, errors, env, e, t1, t2)
  {
    var d := Domain(s0, r0, ng);
    if errors1 == 0 {
      InferredEvolved(s0, r0, s1, r1, env, ng, First(e), t1);
      InferredEvolved(s0, r0, s1, r1, env, ng, Second(e), t2);
      ToUnifyFits(s1, r1, e, t1, t2, one, two);
      if two == INTEGER { StaticSimple(s1, r1, two, d); }
    }
    hide Inferred, PartsExactly, Ranked, Evolved, Unified, Simple, Domain, EqualWhenFit, First, Second, InStore;
    if errors0 == 0 {
      PartsUnified(s0, r0, s1, r1, errors1 > 0, s, rank, errors > 0, env, e, t1, t2, one, two, d);
    }
  }

  lemma WholeIsExact(s0: Store, r0: seq<nat>, errors0: nat, s: Store, rank: seq<nat>, errors: nat,
                     env: TypeEnvironment, e: Expr, t1: Ref, t2: Ref, t: Ref)
    requires PartsExact(s0, r0, errors0, s, rank, errors, env, e, t1, t2)
    requires (e.If? && t == t1) || (e.Binary? && t == if e.bop == Equals then BOOLEAN else INTEGER)
    ensures Exact(s0, r0, errors0, s, rank, errors, env, e, t)
  {
    if errors0 == 0 {
      if errors == 0 && e.Binary? { StaticSimple(s, rank, t, iset{}); }
      hide Ranked, Resolve;
      WholeFound(s0, r0, s, rank, errors > 0, env, e, t1, t2, t);
    }
  }

  /** No type without both parts. */
  lemma FailureIsExact(s0: Store, r0: seq<nat>, errors0: nat, s: Store, rank: seq<nat>, errors: nat,
                       env: TypeEnvironment, e: Expr, t1: Ref, t2: Ref, t: Ref)
    requires TwoPart(e) && PartsExact(s0, r0, errors0, s, rank, errors, env, e, t1, t2) && errors > 0
    ensures Exact(s0, r0, errors0, s, rank, errors, env, e, t)
  {
    hide Ranked, PartsExactly, Exactly;
    if errors0 == 0 { WholeFound(s0, r0, s, rank, true, env, e, t1, t2, t); }
  }

  lemma ApplyIsExact(s0: Store, r0: seq<nat>, errors0: nat, s2: Store, r2: seq<nat>, s3: Store, r3: seq<nat>,
                     errors3: nat, s: Store, rank: seq<nat>, errors: nat, env: TypeEnvironment, ng: seq<Ref>,
                     e: Expr, tf: Ref, ta: Ref)
    requires e.Apply? && errors >= errors3 >= errors0 && PartsExact(s0, r0, errors0, s2, r2, errors3, env, e, tf, ta)
    requires Analyzed(s0, r0, s2, r2, errors3, env, ng, e.function_, tf) &&
             Analyzed(s0, r0, s2, r2, errors3, env, ng, e.argument, ta)
    requires Ranked(s0, r0) && InStore(s0, ng) && Ranked(s2, r2) && |s2| == |r2| && Ranked(s3, r3) &&
             Ranked(s, rank) && |s| == |s3|
    requires Cell(s2, ta) && Cell(s2, tf) && s3 == s2 + [VARIABLE] + [TypeExp(Func, ta, |s2|)] &&
             r3 == r2 + [1] + [r2[ta] + 1 + 1]
    requires Unified(s3, r3, s, rank, |s2| + 1, tf, Domain(s0, r0, ng), errors > errors3)
    ensures Exact(s0, r0, errors0, s, rank, errors, env, e, |s2|)
  {
    var d := Domain(s0, r0, ng);
    if errors3 == 0 {
      assert |s2| >= |s0|;
      CalleeType(s0, r0, s2, r2, env, ng, e.function_, e.argument, tf, ta);
      InferredEvolved(s0, r0, s3, r3, env, ng, e.function_, tf);
    }
    assert Appended(s2, r2, s3, r3);
    hide Inferred, PartsExactly, Exactly, Ranked, Evolved, Unified, Simple, Domain, Analyzed, Appended;
    if errors0 == 0 {
      ApplyFound(s0, r0, s2, r2, errors3 > 0, s3, r3, s, rank, errors > 0, env, e, tf, ta, d);
    }
  }

  lemma IdentifierIsExact(s0: Store, r0: seq<nat>, errors0: nat, s: Store, rank: seq<nat>, env: TypeEnvironment,
                          ng: seq<Ref>, e: Expr, t: Ref, m: map<Ref, Ref>)
    requires e.Identifier? && Ready(s0, r0, errors0, env, ng) && Ranked(s0, r0) && Ranked(s, rank) &&
             LookUp(env, e.id) != NULL
    requires Cell(s, t) && Cell(s0, LookUp(env, e.id)) &&
             CopyMade(s0, r0, INSTANTIATION, s, rank, LookUp(env, e.id), t, m)
    ensures Exact(s0, r0, errors0, s, rank, errors0, env, e, t)
  {
    hide Ranked, CopyMade, Scope, Principal;
    if errors0 == 0 { IdentifierPrincipal(s0, r0, s, rank, env, ng, e.id, t, m); }
  }

  lemma UnboundIsExact(s: Store, rank: seq<nat>, errors0: nat, env: TypeEnvironment, ng: seq<Ref>, e: Expr)
    requires e.Identifier? && Ready(s, rank, errors0, env, ng) && LookUp(env, e.id) == NULL
    ensures Exact(s, rank, errors0, s, rank, errors0 + 1, env, e, ERROR)
  {
    hide Ranked, Scope;
    UnboundName(s, rank, env, e.id);
  }

  lemma ConstantIsExact(s: Store, rank: seq<nat>, errors: nat, env: TypeEnvironment, ng: seq<Ref>, e: Expr)
    requires (e.Literal? || e.True? || e.False?) && Ready(s, rank, errors, env, ng)
    ensures Exact(s, rank, errors, s, rank, errors, env, e, if e.Literal? then INTEGER else BOOLEAN)
  {
    hide Ranked, Scope, Exactly;
    if errors == 0 { ConstantFound(s, rank, env, e); }
  }

  lemma ErrorIsExact(s: Store, rank: seq<nat>, errors: nat, env: TypeEnvironment, ng: seq<Ref>, e: Expr)
    requires (e.Error? || e.Invalid?) && Ready(s, rank, errors, env, ng)
    ensures Exact(s, rank, errors, s, rank, errors + 1, env, e, ERROR)
  {
  }

  lemma UnaryIsExact(s0: Store, r0: seq<nat>, errors0: nat, s: Store, rank: seq<nat>, errors: nat,
                     env: TypeEnvironment, e: Expr, t: Ref)
    requires e.Unary? && Exact(s0, r0, errors0, s, rank, errors, env, e.arg, t)
    ensures Exact(s0, r0, errors0, s, rank, errors, env, e, t)
  {
    hide Ranked, Exactly;
    if errors0 == 0 { UnaryFound(s0, r0, s, rank, errors > 0, env, e, t); }
  }

  lemma TupleIsExact(s0: Store, r0: seq<nat>, errors0: nat, s: Store, rank: seq<nat>, errors: nat, s': Store,
                     rank': seq<nat>, env: TypeEnvironment, e: Expr, tf: Ref, tr: Ref)
    requires e.Tuple? && PartsExact(s0, r0, errors0, s, rank, errors, env, e, tf, tr) && Ranked(s, rank) &&
             |rank| == |s| && Ranked(s', rank')
    requires Cell(s, tf) && Cell(s, tr)
    requires s' == s + [TypeExp(TupleKind, tf, tr)] && rank' == rank + [rank[tf] + rank[tr] + 1]
    ensures Exact(s0, r0, errors0, s', rank', errors, env, e, |s|)
  {
    assert Appended(s, rank, s', rank') && s'[|s|] == TypeExp(TupleKind, tf, tr);
    forall h: Ref -> Type
      ensures Resolve(s', rank', h, |s|) == TTuple(Resolve(s', rank', h, tf), Resolve(s', rank', h, tr)) {}
    hide Ranked, PartsExactly, Exactly, Resolve, Appended;
    if errors0 == 0 {
      if errors == 0 { PartsAppended(s0, r0, s, rank, s', rank', env, e, tf, tr); }
      FailedAnywhere(s0, r0, s, rank, s', rank', errors > 0, env, e, tf, tr);
      WholeFound(s0, r0, s', rank', errors > 0, env, e, tf, tr, |s|);
    }
  }

  lemma FailedAnywhere(s0: Store, r0: seq<nat>, s: Store, rank: seq<nat>, s': Store, rank': seq<nat>, failed: bool,
                       env: TypeEnvironment, e: Expr, t1: Ref, t2: Ref)
    requires Ranked(s0, r0) && CellsOf(s0, env) && PartsExactly(s0, r0, s, rank, failed, env, e, t1, t2)
    ensures failed ==> PartsExactly(s0, r0, s', rank', failed, env, e, t1, t2)
  {
    hide Ranked, Parts, ArriveBoth;
  }

  lemma TupleFinalIsExact(s0: Store, r0: seq<nat>, errors0: nat, s: Store, rank: seq<nat>, errors: nat, s': Store,
                          rank': seq<nat>, env: TypeEnvironment, e: Expr, tf: Ref)
    requires e.TupleFinal? && Exact(s0, r0, errors0, s, rank, errors, env, e.first, tf) && Ranked(s, rank) &&
             |rank| == |s| && Ranked(s', rank')
    requires Cell(s, tf) && s' == s + [TypeExp(FinalKind, tf, NULL)] && rank' == rank + [rank[tf] + 1]
    ensures Exact(s0, r0, errors0, s', rank', errors, env, e, |s|)
  {
    assert Appended(s, rank, s', rank') && s'[|s|] == TypeExp(FinalKind, tf, NULL);
    hide Ranked, Exactly, Appended;
    if errors0 == 0 { TupleFinalFound(s0, r0, s, rank, errors > 0, s', rank', env, e, tf); }
  }

  lemma LambdaIsExact(s0: Store, r0: seq<nat>, errors0: nat, s: Store, rank: seq<nat>, errors: nat, s': Store,
                      rank': seq<nat>, env: TypeEnvironment, ng: seq<Ref>, e: Expr, tb: Ref)
    requires e.Lambda? && Ready(s0, r0, errors0, env, ng) && errors >= errors0
    requires Exact(s0 + [VARIABLE], r0 + [1], errors0, s, rank, errors, BindType(e.param, |s0|, env), e.body, tb)
    requires Ranked(s, rank) && |rank| == |s| && Cell(s, tb) && Cell(s, |s0|) && Ranked(s', rank')
    requires s' == s + [TypeExp(Func, |s0|, tb)] && rank' == rank + [rank[|s0|] + rank[tb] + 1]
    ensures Exact(s0, r0, errors0, s', rank', errors, env, e, |s|)
  {
    assert Appended(s, rank, s', rank') && s'[|s|] == TypeExp(Func, |s0|, tb);
    hide Ranked, Exactly, Appended, Scope;
    if errors0 == 0 {
      LambdaFound(s0, r0, s0 + [VARIABLE], r0 + [1], s, rank, errors > 0, s', rank', env, e, tb);
    }
  }

  lemma LetIsExact(s0: Store, r0: seq<nat>, errors0: nat, s1: Store, r1: seq<nat>, s2: Store, r2: seq<nat>,
                   errors2: nat, s: Store, rank: seq<nat>, errors: nat, env: TypeEnvironment, ng: seq<Ref>, e: Expr,
                   t: Ref, g: Ref, m: map<Ref, Ref>, tb: Ref)
    requires e.Let? && Ready(s0, r0, errors0, env, ng) && Analyzed(s0, r0, s1, r1, errors2, env, ng, e.value_, t)
    requires errors >= errors2 >= errors0 && Ranked(s1, r1) && Ranked(s2, r2) && InStore(s1, ng)
    requires CopyMade(s1, r1, Generalisation(s1, r1, ng), s2, r2, t, g, m)
    requires Exact(s0, r0, errors0, s1, r1, errors2, env, e.value_, t)
    requires Exact(s2, r2, errors2, s, rank, errors, BindType(e.id, g, env), e.body, tb)
    ensures Exact(s0, r0, errors0, s, rank, errors, env, e, tb)
  {
    if errors2 == 0 {
      EnterDefinition(s0, r0, s1, r1, s2, r2, env, ng, e.id, e.value_, t, g, m);
      InferredEvolved(s0, r0, s1, r1, env, ng, e.value_, t);
    }
    assert Appended(s1, r1, s2, r2);
    hide Inferred, Generalisation, Ranked, Exactly, CopyMade, Appended, Domain, Evolved, InStore;
    if errors0 == 0 {
      LetFound(s0, r0, s1, r1, errors2 > 0, s2, r2, s, rank, errors > 0, env, ng, e, t, g, m, tb, Domain(s0, r0, ng));
    }
  }

  /** The same for the definition of a recursive name. */
  ghost predicate RecExact(s0: Store, r0: seq<nat>, errors0: nat, s: Store, rank: seq<nat>, errors: nat,
                           env: TypeEnvironment, id: Symbol, value: Expr, t: Ref) {
    errors0 == 0 ==> Ranked(s0, r0) && CellsOf(s0, env) && RecExactly(s0, r0, s, rank, errors > 0, env, id, value, t)
  }

  lemma DefinitionIsExact(s0: Store, r0: seq<nat>, errors0: nat, sa: Store, ra: seq<nat>, sb: Store, rb: seq<nat>,
                          errorsb: nat, s: Store, rank: seq<nat>, errors: nat, env: TypeEnvironment, ng: seq<Ref>,
                          e: Expr, t: Ref)
    requires e.LetRec? && Ready(s0, r0, errors0, env, ng) && sa == s0 + [VARIABLE] && ra == r0 + [1]
    requires Analyzed(sa, ra, sb, rb, errorsb, BindType(e.id, |s0|, env), [|s0|] + ng, e.value_, t) &&
             errors >= errorsb >= errors0
    requires Exact(sa, ra, errors0, sb, rb, errorsb, BindType(e.id, |s0|, env), e.value_, t)
    requires Ranked(sb, rb) && Ranked(s, rank) && Cell(sb, |s0|) && Cell(sb, t) && Ranked(sa, ra) &&
             InStore(sa, [|s0|] + ng)
    requires Unified(sb, rb, s, rank, |s0|, t, Domain(sa, ra, [|s0|] + ng), errors > errorsb)
    ensures RecExact(s0, r0, errors0, s, rank, errors, env, e.id, e.value_, |s0|)
  {
    var d, env' := Domain(sa, ra, [|s0|] + ng), BindType(e.id, |s0|, env);
    if errorsb == 0 {
      EnterParameter(s0, r0, env, ng, e.id);
      InferredEvolved(sa, ra, sb, rb, env', [|s0|] + ng, e.value_, t);
      SimpleLater(sa, ra, sb, rb, |s0|, d);
    }
    hide Inferred, Ranked, Exactly, Domain, Evolved, InStore, Simple, Unified, Scope, RecExactly;
    if errors0 == 0 {
      DefinitionFound(s0, r0, sa, ra, sb, rb, errorsb > 0, s, rank, errors > 0, env, e.id, e.value_, t, d);
    }
  }

  lemma RecIsExact(s0: Store, r0: seq<nat>, errors0: nat, s1: Store, r1: seq<nat>, s2: Store, r2: seq<nat>,
                   s3: Store, r3: seq<nat>, errors3: nat, s: Store, rank: seq<nat>, errors: nat,
                   env: TypeEnvironment, ng: seq<Ref>, e: Expr, g: Ref, m: map<Ref, Ref>, tb: Ref)
    requires Ready(s0, r0, errors0, env, ng) && Defined(s0, r0, s1, r1, errors3, env, ng, e) &&
             errors >= errors3 >= errors0
    requires Ranked(s1, r1) && Ranked(s2, r2) && Ranked(s3, r3) && Redirecting(s1, r1, s2, r2, ng, |s0|, g, m)
    requires Cell(s2, |s0|) && Cell(s2, g) && s3 == Bind(s2, |s0|, g)
    requires RecExact(s0, r0, errors0, s1, r1, errors3, env, e.id, e.value_, |s0|)
    requires Exact(s3, r3, errors3, s, rank, errors, BindType(e.id, |s0|, env), e.body, tb)
    ensures Exact(s0, r0, errors0, s, rank, errors, env, e, tb)
  {
    if errors3 == 0 {
      assert Mono(s1, r1, |s0|);
      DefinitionAppended(s0, r0, s1, r1, s2, r2, env, ng, e.id, e.value_, |s0|, g, m);
      EnterRecursion(s0, r0, s1, r1, s2, r2, env, ng, e.id, e.value_, |s0|, g, m, r3);
    }
    hide RecInferred, Ranked, Exactly, RecExactly, Domain, Evolved, InStore, Redirecting, Bind, Mono;
    if errors0 == 0 {
      LetRecFound(s0, r0, s1, r1, errors3 > 0, s2, r2, s3, r3, s, rank, errors > 0, env, ng, e, |s0|, g, m, tb);
    }
  }

  /** The test of a conditional has been unified with the type of truth values. */
  ghost predicate TestExact(s0: Store, r0: seq<nat>, errors0: nat, s: Store, rank: seq<nat>, errors: nat,
                            env: TypeEnvironment, test: Expr) {
    errors0 == 0 ==> Ranked(s0, r0) && CellsOf(s0, env) && TestExactly(s0, r0, s, rank, errors > 0, env, test)
  }

  lemma TestIsExact(s0: Store, r0: seq<nat>, errors0: nat, s1: Store, r1: seq<nat>, errors1: nat, s: Store,
                    rank: seq<nat>, errors: nat, env: TypeEnvironment, ng: seq<Ref>, e: Expr, t: Ref)
    requires Analyzed(s0, r0, s1, r1, errors1, env, ng, e, t) && Exact(s0, r0, errors0, s1, r1, errors1, env, e, t) &&
             errors >= errors1 >= errors0
    requires Ranked(s0, r0) && InStore(s0, ng) && Ranked(s1, r1) && Ranked(s, rank) && Cell(s1, t) && Cell(s1, BOOLEAN)
    requires Unified(s1, r1, s, rank, t, BOOLEAN, Domain(s0, r0, ng), errors > errors1)
    ensures TestExact(s0, r0, errors0, s, rank, errors, env, e)
  {
    if errors1 == 0 { InferredEvolved(s0, r0, s1, r1, env, ng, e, t); }
    hide Inferred, Ranked, Exactly, TestExactly, Domain, Unified, Simple, InStore;
    if errors0 == 0 {
      TestFound(s0, r0, s1, r1, errors1 > 0, s, rank, errors > 0, env, e, t, Domain(s0, r0, ng));
    }
  }

  lemma BranchesAreExact(s0: Store, r0: seq<nat>, errors0: nat, s2: Store, r2: seq<nat>, errors2: nat, s3: Store,
                         r3: seq<nat>, errors3: nat, s: Store, rank: seq<nat>, errors: nat, env: TypeEnvironment,
                         ng: seq<Ref>, e: Expr, tt: Ref, ta: Ref, tb: Ref)
    requires e.If? && Analyzed(s0, r0, s2, r2, errors2, env, ng, e.test, tt) && errors >= errors3 >= errors2 >= errors0
    requires TestExact(s0, r0, errors0, s2, r2, errors2, env, e.test)
    requires Analyzed(s2, r2, s3, r3, errors3, env, ng, e.then_, ta) &&
             Analyzed(s3, r3, s, rank, errors, env, ng, e.else_, tb)
    requires Exact(s2, r2, errors2, s3, r3, errors3, env, e.then_, ta) &&
             Exact(s3, r3, errors3, s, rank, errors, env, e.else_, tb)
    ensures PartsExact(s0, r0, errors0, s, rank, errors, env, e, ta, tb)
  {
    BothAreExact(s2, r2, errors2, s3, r3, errors3, s, rank, errors, env, ng, e.then_, ta, e.else_, tb);
    if errors2 == 0 { InferredEvolved(s0, r0, s2, r2, env, ng, e.test, tt); }
    hide Inferred, Ranked, BothExactly, TestExactly, PartsExactly, Domain, Evolved, Exact;
    if errors0 == 0 {
      BranchesFound(s0, r0, s2, r2, errors2 > 0, s, rank, errors > 0, Domain(s0, r0, ng), env, e, ta, tb);
    }
  }

  // ----- Programs -----

  /** The program has type `a`: the type found, for some types of its variables. */
  ghost predicate TypeOf(s: Store, rank: seq<nat>, t: Ref, a: Type)
    requires Ranked(s, rank) && Cell(s, t)
  {
    exists free: Ref -> Type :: Resolve(s, rank, free, t) == a
  }

  /** A program has a type exactly if there is no error, and then its types are exactly the
      instances of the one found. */
  lemma ProgramTypes(s0: Store, r0: seq<nat>, s: Store, rank: seq<nat>, errors: nat, e: Expr, t: Ref)
    requires Ranked(s, rank) && Cell(s, t)
    requires Analyzed(s0, r0, s, rank, errors, Nothing, [], e, t) && Exact(s0, r0, 0, s, rank, errors, Nothing, e, t)
    ensures errors == 0 <==> Typable(e)
    ensures errors == 0 ==> forall a :: HasType(NoNames, e, a) <==> TypeOf(s, rank, t, a)
  {
    var h: Ref -> Type := _ => TInt;
    assert ContextOf(s0, r0, h, Nothing) == NoNames;
    hide Ranked, HasType, Resolve, Evolved, Simple, Continues, ContextOf;
    if errors == 0 {
      assert Principal(s0, r0, s, rank, Nothing, e, t);
      forall a | HasType(NoNames, e, a) ensures TypeOf(s, rank, t, a) {
        assert Arrives(s0, r0, h, s, rank, t, a);
      }
      forall free: Ref -> Type ensures HasType(NoNames, e, Resolve(s, rank, free, t)) {
        ProgramHas(s0, r0, s, rank, e, t, free);
      }
      assert HasType(NoNames, e, Resolve(s, rank, h, t));
    } else {
      assert Untypable(s0, r0, Nothing, e);
    }
  }

  lemma ProgramHas(s0: Store, r0: seq<nat>, s: Store, rank: seq<nat>, e: Expr, t: Ref, free: Ref -> Type)
    requires Ranked(s0, r0) && Ranked(s, rank) && Inferred(s0, r0, s, rank, Nothing, [], e, t)
    ensures Cell(s, t) && HasType(NoNames, e, Resolve(s, rank, free, t))
  {
    hide HasType, Resolve, Evolved, Simple;
    assert HasType(ContextOf(s, rank, free, Nothing), e, Resolve(s, rank, free, t));
  }

  // ----- A recursive name whose variable is kept -----

  lemma KeptReady(s0: Store, r0: seq<nat>, errors0: nat, s1: Store, r1: seq<nat>, s2: Store, r2: seq<nat>, errors: nat,
                  env: TypeEnvironment, ng: seq<Ref>, e: Expr, m: map<Ref, Ref>)
    requires Ready(s0, r0, errors0, env, ng) && Defined(s0, r0, s1, r1, errors, env, ng, e) && errors >= errors0
    requires Ranked(s1, r1) && Ranked(s2, r2) && Keeping(s1, r1, s2, r2, ng, |s0|, m)
    ensures Ready(s2, r2, errors, BindType(e.id, |s0|, env), ng) && KindsKept(s0, s2)
  {
    KeptFacts(s1, r1, s2, r2, ng, |s0|, m);
    CellsLater(s0, s2, env);
    if errors == 0 { EnterKept(s0, r0, s1, r1, s2, r2, env, ng, e.id, e.value_, |s0|, m); }
  }

  lemma KeptAnalyzed(s0: Store, r0: seq<nat>, errors0: nat, s1: Store, r1: seq<nat>, s2: Store, r2: seq<nat>,
                     errors2: nat, s: Store, rank: seq<nat>, errors: nat, env: TypeEnvironment, ng: seq<Ref>,
                     e: Expr, m: map<Ref, Ref>, tb: Ref)
    requires Ready(s0, r0, errors0, env, ng) && Defined(s0, r0, s1, r1, errors2, env, ng, e) &&
             errors >= errors2 >= errors0
    requires Ranked(s1, r1) && Ranked(s2, r2) && Keeping(s1, r1, s2, r2, ng, |s0|, m) && KindsKept(s0, s2)
    requires Analyzed(s2, r2, s, rank, errors, BindType(e.id, |s0|, env), ng, e.body, tb)
    ensures Analyzed(s0, r0, s, rank, errors, env, ng, e, tb)
  {
    hide RecInferred, Inferred, Keeping;
    if errors == 0 {
      InferKept(s0, r0, s1, r1, s2, r2, s, rank, env, ng, e.id, e.value_, e.body, |s0|, m, tb);
    }
  }

  lemma KeptIsExact(s0: Store, r0: seq<nat>, errors0: nat, s1: Store, r1: seq<nat>, s2: Store, r2: seq<nat>,
                    errors2: nat, s: Store, rank: seq<nat>, errors: nat, env: TypeEnvironment, ng: seq<Ref>, e: Expr,
                    m: map<Ref, Ref>, tb: Ref)
    requires Ready(s0, r0, errors0, env, ng) && Defined(s0, r0, s1, r1, errors2, env, ng, e) &&
             errors >= errors2 >= errors0
    requires Ranked(s1, r1) && Ranked(s2, r2) && Keeping(s1, r1, s2, r2, ng, |s0|, m)
    requires RecExact(s0, r0, errors0, s1, r1, errors2, env, e.id, e.value_, |s0|)
    requires Exact(s2, r2, errors2, s, rank, errors, BindType(e.id, |s0|, env), e.body, tb)
    ensures Exact(s0, r0, errors0, s, rank, errors, env, e, tb)
  {
    if errors2 == 0 {
      assert Mono(s1, r1, |s0|);
      EnterKept(s0, r0, s1, r1, s2, r2, env, ng, e.id, e.value_, |s0|, m);
    }
    hide RecInferred, Ranked, Exactly, RecExactly, Domain, Evolved, InStore, Keeping, Mono;
    if errors0 == 0 {
      KeptFound(s0, r0, s1, r1, errors2 > 0, s2, r2, s, rank, errors > 0, env, ng, e, |s0|, m, tb);
    }
  }
}
