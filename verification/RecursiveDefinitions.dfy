/** Recursive definitions: what redirecting the variable of a name to its generalised type does to
    all other types. */
module RecursiveDefinitions {
  import opened Syntax
  import opened TypeCells
  import opened Typing
  import opened Unification
  import opened Schemes
  import opened Copying
  import opened Memos
  import opened CopySteps
  import opened Inference
  import opened InferenceRules

  /** There are no bound variables in a copy. */
  lemma {:induction false} CopiedNoBound(s: Store, rank: seq<nat>, kind: Kind, m: map<Ref, Ref>, t: Ref, g: Ref, i: Ref)
    requires Ranked(s, rank) && Cell(s, t) && Copied(s, rank, kind, m, t, g) && LeafMap(s, kind, m) &&
             kind in {Variable, Generic}
    requires Cell(s, g) && Cell(s, i) && Within(s, rank, i, g)
    ensures !IsBound(s[i])
    decreases rank[t]
  {
    var p := Pruned(s, rank, t);
    if i != g {
      if s[p].kind in {Func, TupleKind, FinalKind} {
        if s[p].kind == FinalKind || Within(s, rank, i, s[g].first) {
          CopiedNoBound(s, rank, kind, m, s[p].first, s[g].first, i);
        } else {
          CopiedNoBound(s, rank, kind, m, s[p].second, s[g].second, i);
        }
      } else {
        LeavesAreEmpty(s, g);
        NothingInside(s, rank, g, i);
      }
    }
  }

  lemma LeavesAreEmpty(s: Store, r: Ref)
    requires WellFormed(s) && Cell(s, r)
    ensures !IsBound(s[r]) && s[r].kind !in {Func, TupleKind, FinalKind} ==> s[r].first == NULL && s[r].second == NULL
  {
    assert WellFormedCell(s[r], |s|);
  }

  /** Every leaf of a type is in its copy, or its replacement is. */
  lemma {:induction false} CopiedLeafBack(s: Store, rank: seq<nat>, kind: Kind, m: map<Ref, Ref>, t: Ref, g: Ref,
                                          u: Ref)
    requires Ranked(s, rank) && Cell(s, t) && Copied(s, rank, kind, m, t, g) && LeafMap(s, kind, m) &&
             kind in {Variable, Generic}
    requires Cell(s, g) && Cell(s, u) && Leaf(s[u]) && Within(s, rank, u, t)
    ensures if s[u].kind == kind then u in m && Within(s, rank, m[u], g) else Within(s, rank, u, g)
    decreases rank[t]
  {
    var p := Pruned(s, rank, t);
    LeafOfPruned(s, rank, t, u);
    if s[p].kind in {Func, TupleKind, FinalKind} {
      var part := if s[p].kind == FinalKind || Within(s, rank, u, s[p].first) then s[p].first else s[p].second;
      var copy := if s[p].kind == FinalKind || Within(s, rank, u, s[p].first) then s[g].first else s[g].second;
      CopiesAreCells(s, rank, kind, m, part, copy);
      CopiedLeafBack(s, rank, kind, m, part, copy, u);
      PartsWithin(s, rank, g, copy);
    } else {
      LeavesAreEmpty(s, p);
      NothingInside(s, rank, p, u);
    }
  }

  // ----- Redirecting -----

  /** A type stands for the same as before, and has the same leaves. */
  ghost predicate Unmoved(s: Store, rank: seq<nat>, s': Store, rank': seq<nat>, c: Ref)
    requires Ranked(s, rank) && Ranked(s', rank') && |s| == |s'| && Cell(s, c)
  {
    && (forall free: Ref -> Type :: Resolve(s', rank', free, c) == Resolve(s, rank, free, c))
    && (forall v :: Cell(s, v) && Leaf(s'[v]) ==> (Within(s', rank', v, c) <==> Within(s, rank, v, c)))
  }

  lemma ElsewhereUnmoved(s: Store, rank: seq<nat>, a: Ref, b: Ref, rank': seq<nat>, c: Ref)
    requires Ranked(s, rank) && Cell(s, a) && Cell(s, b) && Ranked(Bind(s, a, b), rank') && Cell(s, c)
    requires !Within(s, rank, a, c)
    ensures Unmoved(s, rank, Bind(s, a, b), rank', c)
  {
    BindElsewhere(s, rank, a, b, rank', c, _ => TInt);
    forall free: Ref -> Type ensures Resolve(Bind(s, a, b), rank', free, c) == Resolve(s, rank, free, c) {
      BindElsewhere(s, rank, a, b, rank', c, free);
    }
  }

  /** Redirecting a bound variable to a type that is the same as its own moves nothing. */
  lemma {:induction false} NeutralUnmoved(s: Store, rank: seq<nat>, a: Ref, b: Ref, rank': seq<nat>, c: Ref)
    requires Ranked(s, rank) && Cell(s, a) && Cell(s, b) && Ranked(Bind(s, a, b), rank') && Cell(s, c)
    requires IsBound(s[a]) && !Within(s, rank, a, b)
    requires forall free: Ref -> Type :: Resolve(s, rank, free, b) == Resolve(s, rank, free, a)
    requires forall v :: Cell(s, v) && Leaf(s[v]) ==> (Within(s, rank, v, b) <==> Within(s, rank, v, a))
    ensures Unmoved(s, rank, Bind(s, a, b), rank', c)
    decreases rank[c]
  {
    hide Within, Resolve, Ranked, Unmoved, Bind;
    if c == a {
      ElsewhereUnmoved(s, rank, a, b, rank', b);
      NeutralVariable(s, rank, a, b, rank');
    } else {
      PartsBelow(s, rank, c);
      if s[c].first != NULL { NeutralUnmoved(s, rank, a, b, rank', s[c].first); }
      if s[c].second != NULL { NeutralUnmoved(s, rank, a, b, rank', s[c].second); }
      NeutralParts(s, rank, a, b, rank', c);
    }
  }

  lemma NeutralVariable(s: Store, rank: seq<nat>, a: Ref, b: Ref, rank': seq<nat>)
    requires Ranked(s, rank) && Cell(s, a) && Cell(s, b) && Ranked(Bind(s, a, b), rank') && IsBound(s[a])
    requires forall free: Ref -> Type :: Resolve(s, rank, free, b) == Resolve(s, rank, free, a)
    requires forall v :: Cell(s, v) && Leaf(s[v]) ==> (Within(s, rank, v, b) <==> Within(s, rank, v, a))
    requires Unmoved(s, rank, Bind(s, a, b), rank', b)
    ensures Unmoved(s, rank, Bind(s, a, b), rank', a)
  {
    var s' := Bind(s, a, b);
    assert s'[a].first == b && s'[a].second == NULL by { assert WellFormedCell(s[a], |s|); }
    forall free: Ref -> Type ensures Resolve(s', rank', free, a) == Resolve(s, rank, free, a) {
      assert Resolve(s', rank', free, a) == Resolve(s', rank', free, b);
    }
    forall v | Cell(s, v) && Leaf(s'[v]) ensures Within(s', rank', v, a) <==> Within(s, rank, v, a) {
      WithinVariable(s', rank', v, a);
    }
  }

  lemma WithinVariable(s: Store, rank: seq<nat>, v: Ref, a: Ref)
    requires Ranked(s, rank) && Cell(s, a) && IsBound(s[a]) && Cell(s, v) && v != a
    ensures Cell(s, s[a].first) && (Within(s, rank, v, a) <==> Within(s, rank, v, s[a].first))
  {
    assert WellFormedCell(s[a], |s|) && !Within(s, rank, v, NULL);
  }

  /** A type does not move if its parts do not. */
  lemma NeutralParts(s: Store, rank: seq<nat>, a: Ref, b: Ref, rank': seq<nat>, c: Ref)
    requires Ranked(s, rank) && Cell(s, a) && Cell(s, b) && Ranked(Bind(s, a, b), rank') && Cell(s, c) && c != a
    requires s[c].first != NULL ==> Cell(s, s[c].first) && Unmoved(s, rank, Bind(s, a, b), rank', s[c].first)
    requires s[c].second != NULL ==> Cell(s, s[c].second) && Unmoved(s, rank, Bind(s, a, b), rank', s[c].second)
    ensures Unmoved(s, rank, Bind(s, a, b), rank', c)
  {
    var s' := Bind(s, a, b);
    assert s'[c] == s[c];
    forall free: Ref -> Type ensures Resolve(s', rank', free, c) == Resolve(s, rank, free, c) {}
    forall v | Cell(s, v) && Leaf(s'[v]) ensures Within(s', rank', v, c) <==> Within(s, rank, v, c) {
      WithinParts(s, rank, v, c);
      WithinParts(s', rank', v, c);
    }
  }

  lemma WithinParts(s: Store, rank: seq<nat>, v: Ref, c: Ref)
    requires Ranked(s, rank) && Cell(s, c) && Cell(s, v)
    ensures Within(s, rank, v, c) <==>
              || v == c
              || (s[c].first != NULL && Within(s, rank, v, s[c].first))
              || (s[c].second != NULL && Within(s, rank, v, s[c].second))
  {
    assert !Within(s, rank, v, NULL);
  }

  /** A generalisation that has replaced nothing. */
  lemma IdentityCopy(s: Store, rank: seq<nat>, m: map<Ref, Ref>, t: Ref, g: Ref)
    requires Ranked(s, rank) && Cell(s, t) && Cell(s, g) && Copied(s, rank, Variable, m, t, g) &&
             LeafMap(s, Variable, m)
    requires forall v :: v in m ==> m[v] == v
    ensures forall free: Ref -> Type :: Resolve(s, rank, free, g) == Resolve(s, rank, free, t)
    ensures forall v :: Cell(s, v) && Leaf(s[v]) ==> (Within(s, rank, v, g) <==> Within(s, rank, v, t))
  {
    forall free: Ref -> Type ensures Resolve(s, rank, free, g) == Resolve(s, rank, free, t) {
      CopiedResolve(s, rank, Variable, m, t, g, free);
      ResolveAgree(s, rank, After(m, free), free, t);
    }
    forall v | Cell(s, v) && Leaf(s[v]) ensures Within(s, rank, v, g) <==> Within(s, rank, v, t) {
      if Within(s, rank, v, g) { var u := CopiedLeaf(s, rank, Variable, m, t, g, v); }
      if Within(s, rank, v, t) { CopiedLeafBack(s, rank, Variable, m, t, g, v); }
    }
  }

  /** The variable of a recursive name is about to be redirected to its generalised type. */
  ghost predicate Redirecting(s1: Store, r1: seq<nat>, s: Store, rank: seq<nat>, ng: seq<Ref>, t: Ref, g: Ref,
                              m: map<Ref, Ref>)
    requires Ranked(s1, r1) && Ranked(s, rank)
  {
    && InStore(s1, ng) && InStore(s, ng) && Cell(s1, t) && s1[t].kind == Variable && g != t
    && CopyMade(s1, r1, Generalisation(s1, r1, ng), s, rank, t, g, m)
  }

  lemma VariableCopy(s: Store, rank: seq<nat>, m: map<Ref, Ref>, t: Ref, g: Ref)
    requires Ranked(s, rank) && Cell(s, t) && IsUnbound(s[t]) && Copied(s, rank, Variable, m, t, g)
    ensures t in m && g == m[t]
  {
  }

  lemma RedirectedRanked(s1: Store, r1: seq<nat>, s: Store, rank: seq<nat>, ng: seq<Ref>, t: Ref, g: Ref,
                         m: map<Ref, Ref>)
    requires Ranked(s1, r1) && Ranked(s, rank) && Redirecting(s1, r1, s, rank, ng, t, g, m)
    ensures Cell(s, t) && Cell(s, g) && !Within(s, rank, t, g)
    ensures Ranked(Bind(s, t, g), Lifted(s, rank, t, g)) && s[t] == s1[t]
  {
    var plan := Generalisation(s1, r1, ng);
    MadeLeafMap(s1, r1, plan, s, rank, t, g, m);
    if Within(s, rank, t, g) {
      CopiedNoBound(s, rank, Variable, m, t, g, t);
      VariableCopy(s, rank, m, t, g);
      var u := CopiedLeaf(s, rank, Variable, m, t, g, t);
      NothingInside(s, rank, t, u);
    }
    BindRanked(s, rank, t, g);
  }

  /** Generalising the type of the name gives the name's own variable, so that the redirected
      variable would point to itself, exactly if the variable is still unbound and part of the type
      of an enclosing parameter. */
  lemma SelfLinkExact(s1: Store, r1: seq<nat>, s: Store, rank: seq<nat>, ng: seq<Ref>, t: Ref, g: Ref, m: map<Ref, Ref>)
    requires Ranked(s1, r1) && Ranked(s, rank) && InStore(s1, ng) && Cell(s1, t) && s1[t].kind == Variable
    requires CopyMade(s1, r1, Generalisation(s1, r1, ng), s, rank, t, g, m)
    ensures g == t <==> IsUnbound(s1[t]) && NonGeneric(s1, r1, t, ng)
  {
    MadeLeafMap(s1, r1, Generalisation(s1, r1, ng), s, rank, t, g, m);
    assert s[t] == s1[t];
    if g == t {
      assert Within(s, rank, t, t);
      CopiedNoBound(s, rank, Variable, m, t, t, t);
    }
    if IsUnbound(s1[t]) { VariableCopy(s, rank, m, t, g); }
  }

  /** Types whose variables are all part of enclosing parameters do not move. */
  lemma RedirectedUnmoved(s1: Store, r1: seq<nat>, s: Store, rank: seq<nat>, ng: seq<Ref>, t: Ref, g: Ref,
                          m: map<Ref, Ref>, rank': seq<nat>, c: Ref)
    requires Ranked(s1, r1) && Ranked(s, rank) && Redirecting(s1, r1, s, rank, ng, t, g, m)
    requires Cell(s, t) && Cell(s, g) && Ranked(Bind(s, t, g), rank') && Cell(s, c) && InStore(s, ng)
    requires forall v :: Cell(s, v) && IsUnbound(s[v]) && Within(s, rank, v, c) ==> NonGeneric(s, rank, v, ng)
    ensures Unmoved(s, rank, Bind(s, t, g), rank', c)
    ensures Within(s, rank, t, c) ==> IsBound(s[t])
  {
    hide Ranked, Unmoved, Within, Copied, Bind, Resolve;
    RedirectedRanked(s1, r1, s, rank, ng, t, g, m);
    if Within(s, rank, t, c) {
      var plan := Generalisation(s1, r1, ng);
      MadeLeafMap(s1, r1, plan, s, rank, t, g, m);
      AppendedSame(s1, r1, s, rank, t);
      forall v | v in m ensures m[v] == v {
        WithinTrans(s, rank, v, t, c);
        AppendedNonGeneric(s1, r1, s, rank, v, ng);
      }
      IdentityCopy(s, rank, m, t, g);
      if IsUnbound(s[t]) { VariableCopy(s, rank, m, t, g); }
      NeutralUnmoved(s, rank, t, g, rank', c);
    } else {
      ElsewhereUnmoved(s, rank, t, g, rank', c);
    }
  }

  // ----- The definition -----

  /** Whatever the types of unbound variables, the definition has the type of the name in it. */
  ghost predicate RecInferred(s0: Store, r0: seq<nat>, s: Store, rank: seq<nat>, env: TypeEnvironment, ng: seq<Ref>,
                              id: Symbol, value: Expr, t: Ref)
    requires Ranked(s0, r0) && Ranked(s, rank) && InStore(s0, ng)
  {
    && Evolved(s0, s, rank, Domain(s0, r0, ng)) && CellsOf(s0, env) && CellsOf(s, env) && Cell(s, t)
    && Simple(s, rank, t, Domain(s0, r0, ng))
    && forall free: Ref -> Type ::
         HasType(Named(id, iset{Resolve(s, rank, free, t)}, ContextOf(s, rank, free, env)), value,
                 Resolve(s, rank, free, t))
  }

  /** Analysing the definition with a new variable for the name, then unifying both types. */
  lemma DefinitionInferred(s0: Store, r0: seq<nat>, sa: Store, ra: seq<nat>, sb: Store, rb: seq<nat>, s: Store,
                           rank: seq<nat>, env: TypeEnvironment, ng: seq<Ref>, id: Symbol, value: Expr, t: Ref)
    requires Ranked(s0, r0) && Ranked(sa, ra) && Ranked(sb, rb) && Ranked(s, rank) && Scope(s0, r0, env, ng)
    requires sa == s0 + [VARIABLE] && ra == r0 + [1] && InStore(sa, [|s0|] + ng) && Cell(sb, |s0|)
    requires Inferred(sa, ra, sb, rb, BindType(id, |s0|, env), [|s0|] + ng, value, t)
    requires Unified(sb, rb, s, rank, |s0|, t, Domain(sa, ra, [|s0|] + ng), false)
    ensures RecInferred(s0, r0, s, rank, env, ng, id, value, |s0|)
  {
    hide Ranked, Evolved, Simple, HasType, Unified, Domain;
    var p, d, da, env' := |s0|, Domain(s0, r0, ng), Domain(sa, ra, [|s0|] + ng), BindType(id, |s0|, env);
    EnterParameter(s0, r0, env, ng, id);
    AppendedEvolved(s0, r0, sa, ra, d);
    SimpleLater(sa, ra, sb, rb, p, da);
    UnifiedEvolved(sa, ra, sb, rb, s, rank, p, t, da);
    InferredLater(sa, ra, sb, rb, s, rank, env', [p] + ng, value, t);
    EvolvedTrans(s0, sa, ra, s, rank, d, da);
    SimpleLater(sb, rb, s, rank, p, da);
    SimpleWider(s, rank, p, da, d);
    CellsLater(s0, s, env);
    forall free: Ref -> Type
      ensures HasType(Named(id, iset{Resolve(s, rank, free, p)}, ContextOf(s, rank, free, env)), value,
                      Resolve(s, rank, free, p))
    {
      OnlyInstance(s, rank, free, p, da);
    }
  }

  lemma OnlyInstance(s: Store, rank: seq<nat>, free: Ref -> Type, c: Ref, d: iset<Ref>)
    requires Ranked(s, rank) && Cell(s, c) && Simple(s, rank, c, d)
    ensures Instances(s, rank, free, c) == iset{Resolve(s, rank, free, c)}
  {
    InstancesMono(s, rank, free, c);
  }

  lemma RecInferredLater(s0: Store, r0: seq<nat>, s: Store, rank: seq<nat>, s': Store, rank': seq<nat>,
                         env: TypeEnvironment, ng: seq<Ref>, id: Symbol, value: Expr, t: Ref)
    requires Ranked(s0, r0) && Ranked(s, rank) && Ranked(s', rank') && InStore(s0, ng)
    requires RecInferred(s0, r0, s, rank, env, ng, id, value, t) && Evolved(s, s', rank', Domain(s0, r0, ng))
    ensures RecInferred(s0, r0, s', rank', env, ng, id, value, t)
  {
    hide HasType, Ranked;
    var d := Domain(s0, r0, ng);
    EvolvedTrans(s0, s, rank, s', rank', d, d);
    CellsLater(s, s', env);
    SimpleLater(s, rank, s', rank', t, d);
    forall free: Ref -> Type
      ensures HasType(Named(id, iset{Resolve(s', rank', free, t)}, ContextOf(s', rank', free, env)), value,
                      Resolve(s', rank', free, t))
    {
      ContextLater(s, rank, s', rank', d, free, env);
      ResolveLater(s, rank, s', rank', free, t);
    }
  }

  // ----- After redirecting -----

  /** An instance of the redirected variable is one of the generalised type. */
  lemma RedirectedInstance(s: Store, rank: seq<nat>, t: Ref, g: Ref, rank': seq<nat>, free: Ref -> Type, a: Type)
    requires Ranked(s, rank) && Cell(s, t) && Cell(s, g) && Ranked(Bind(s, t, g), rank') && s[t].kind == Variable &&
             !Within(s, rank, t, g)
    requires IsInstance(Bind(s, t, g), rank', free, t, a)
    ensures IsInstance(s, rank, free, g, a)
  {
    var s' := Bind(s, t, g);
    var f: Ref -> Type :| AgreeOnUnbound(s', f, free) && Resolve(s', rank', f, t) == a;
    assert Resolve(s', rank', f, t) == Resolve(s', rank', f, g);
    BindElsewhere(s, rank, t, g, rank', g, f);
    var h: Ref -> Type := v => if v == t then free(v) else f(v);
    ResolveAgree(s, rank, f, h, g);
    assert AgreeOnUnbound(s, h, free);
  }

  /** A type that has not moved has the same instances. */
  lemma UnmovedInstances(s: Store, rank: seq<nat>, t: Ref, g: Ref, rank': seq<nat>, free: Ref -> Type, c: Ref)
    requires Ranked(s, rank) && Cell(s, t) && Cell(s, g) && Ranked(Bind(s, t, g), rank') && Cell(s, c)
    requires Unmoved(s, rank, Bind(s, t, g), rank', c) && (Within(s, rank, t, c) ==> IsBound(s[t]))
    requires s[t].kind == Variable
    ensures Instances(Bind(s, t, g), rank', free, c) == Instances(s, rank, free, c)
  {
    var s' := Bind(s, t, g);
    hide Ranked, Within, Unmoved, IsInstance, Resolve, Bind;
    forall a ensures IsInstance(s, rank, free, c, a) <==> IsInstance(s', rank', free, c, a) {
      if IsInstance(s, rank, free, c, a) { UnmovedInstance(s, rank, t, g, rank', free, c, a); }
      if IsInstance(s', rank', free, c, a) { UnmovedBack(s, rank, t, g, rank', free, c, a); }
    }
  }

  lemma UnmovedInstance(s: Store, rank: seq<nat>, t: Ref, g: Ref, rank': seq<nat>, free: Ref -> Type, c: Ref, a: Type)
    requires Ranked(s, rank) && Cell(s, t) && Cell(s, g) && Ranked(Bind(s, t, g), rank') && Cell(s, c) && g != NULL
    requires Unmoved(s, rank, Bind(s, t, g), rank', c) && IsInstance(s, rank, free, c, a)
    ensures Cell(Bind(s, t, g), c) && IsInstance(Bind(s, t, g), rank', free, c, a)
  {
    var f: Ref -> Type :| AgreeOnUnbound(s, f, free) && Resolve(s, rank, f, c) == a;
    assert AgreeOnUnbound(Bind(s, t, g), f, free);
  }

  lemma UnmovedBack(s: Store, rank: seq<nat>, t: Ref, g: Ref, rank': seq<nat>, free: Ref -> Type, c: Ref, a: Type)
    requires Ranked(s, rank) && Cell(s, t) && Cell(s, g) && Ranked(Bind(s, t, g), rank') && Cell(s, c) &&
             Cell(Bind(s, t, g), c)
    requires Unmoved(s, rank, Bind(s, t, g), rank', c) && (Within(s, rank, t, c) ==> IsBound(s[t]))
    requires IsInstance(Bind(s, t, g), rank', free, c, a) && s[t].kind == Variable
    ensures IsInstance(s, rank, free, c, a)
  {
    var s' := Bind(s, t, g);
    var f: Ref -> Type :| AgreeOnUnbound(s', f, free) && Resolve(s', rank', f, c) == a;
    assert Resolve(s, rank, f, c) == a;
    InstanceBut(s, rank, f, free, t, c);
    hide Unmoved, Ranked, Bind, Resolve, Within;
  }

  /** The type of a variable that is not in a type does not matter for it. */
  lemma InstanceBut(s: Store, rank: seq<nat>, f: Ref -> Type, free: Ref -> Type, t: Ref, c: Ref)
    requires Ranked(s, rank) && Cell(s, c) && Cell(s, t) && (Within(s, rank, t, c) ==> IsBound(s[t])) &&
             s[t].kind == Variable
    requires forall v :: Cell(s, v) && IsUnbound(s[v]) && v != t ==> f(v) == free(v)
    ensures IsInstance(s, rank, free, c, Resolve(s, rank, f, c))
  {
    hide Ranked, Within, Resolve;
    var h: Ref -> Type := v => if v == t then free(v) else f(v);
    ResolveAgree(s, rank, f, h, c);
    assert AgreeOnUnbound(s, h, free);
  }

  /** Non-generic variables stay non-generic. */
  lemma UnmovedNonGeneric(s1: Store, r1: seq<nat>, s: Store, rank: seq<nat>, ng: seq<Ref>, t: Ref, g: Ref,
                          m: map<Ref, Ref>, rank': seq<nat>, v: Ref)
    requires Ranked(s1, r1) && Ranked(s, rank) && Redirecting(s1, r1, s, rank, ng, t, g, m)
    requires Cell(s, t) && Cell(s, g) && Ranked(Bind(s, t, g), rank') && InStore(Bind(s, t, g), ng)
    requires Cell(s, v) && Leaf(Bind(s, t, g)[v]) && NonGeneric(s, rank, v, ng)
    ensures NonGeneric(Bind(s, t, g), rank', v, ng)
  {
    var k :| 0 <= k < |ng| && Within(s, rank, v, ng[k]);
    RedirectedUnmoved(s1, r1, s, rank, ng, t, g, m, rank', ng[k]);
  }

  lemma UnmovedCovered(s1: Store, r1: seq<nat>, s: Store, rank: seq<nat>, ng: seq<Ref>, t: Ref, g: Ref,
                       m: map<Ref, Ref>, rank': seq<nat>, c: Ref)
    requires Ranked(s1, r1) && Ranked(s, rank) && Redirecting(s1, r1, s, rank, ng, t, g, m)
    requires Cell(s, t) && Cell(s, g) && Ranked(Bind(s, t, g), rank') && InStore(Bind(s, t, g), ng)
    requires Cell(s, c) && Covered(s, rank, c, ng) && Unmoved(s, rank, Bind(s, t, g), rank', c)
    ensures Covered(Bind(s, t, g), rank', c, ng)
  {
    var s' := Bind(s, t, g);
    forall v | Cell(s', v) && Leaf(s'[v]) && Within(s', rank', v, c)
      ensures s'[v].kind != ErrorKind && (s'[v].kind == Variable ==> NonGeneric(s', rank', v, ng))
    {
      if s'[v].kind == Variable { UnmovedNonGeneric(s1, r1, s, rank, ng, t, g, m, rank', v); }
    }
  }

  /** The names in scope have the same types as before. */
  lemma {:induction false} UnmovedContext(s1: Store, r1: seq<nat>, s: Store, rank: seq<nat>, ng: seq<Ref>, t: Ref,
                                          g: Ref, m: map<Ref, Ref>, rank': seq<nat>, env: TypeEnvironment)
    requires Ranked(s1, r1) && Ranked(s, rank) && Redirecting(s1, r1, s, rank, ng, t, g, m)
    requires Cell(s, t) && Cell(s, g) && Ranked(Bind(s, t, g), rank') && InStore(Bind(s, t, g), ng)
    requires CellsOf(s, env) && CellsOf(Bind(s, t, g), env) && EnvCovered(s, rank, env, ng)
    ensures EnvCovered(Bind(s, t, g), rank', env, ng)
    ensures forall free: Ref -> Type :: ContextOf(Bind(s, t, g), rank', free, env) == ContextOf(s, rank, free, env)
  {
    hide Within, Resolve, Ranked, Unmoved, Bind, Instances, Covered, Redirecting;
    if env.BindType? {
      CoveredUnmoved(s1, r1, s, rank, ng, t, g, m, rank', env.type_);
      UnmovedContext(s1, r1, s, rank, ng, t, g, m, rank', env.parent);
    }
  }

  lemma CoveredUnmoved(s1: Store, r1: seq<nat>, s: Store, rank: seq<nat>, ng: seq<Ref>, t: Ref, g: Ref,
                       m: map<Ref, Ref>, rank': seq<nat>, c: Ref)
    requires Ranked(s1, r1) && Ranked(s, rank) && Redirecting(s1, r1, s, rank, ng, t, g, m)
    requires Cell(s, t) && Cell(s, g) && Ranked(Bind(s, t, g), rank') && InStore(Bind(s, t, g), ng)
    requires Cell(s, c) && Covered(s, rank, c, ng)
    ensures Cell(Bind(s, t, g), c) && Covered(Bind(s, t, g), rank', c, ng)
    ensures forall free: Ref -> Type :: Instances(Bind(s, t, g), rank', free, c) == Instances(s, rank, free, c)
  {
    RedirectedUnmoved(s1, r1, s, rank, ng, t, g, m, rank', c);
    assert s[t] == s1[t];
    UnmovedCovered(s1, r1, s, rank, ng, t, g, m, rank', c);
    forall free: Ref -> Type ensures Instances(Bind(s, t, g), rank', free, c) == Instances(s, rank, free, c) {
      UnmovedInstances(s, rank, t, g, rank', free, c);
    }
  }

  lemma UnmovedSimple(s: Store, rank: seq<nat>, t: Ref, g: Ref, rank': seq<nat>, c: Ref, d: iset<Ref>)
    requires Ranked(s, rank) && Cell(s, t) && Cell(s, g) && Ranked(Bind(s, t, g), rank') && Cell(s, c)
    requires Unmoved(s, rank, Bind(s, t, g), rank', c) && Simple(s, rank, c, d)
    ensures Simple(Bind(s, t, g), rank', c, d)
  {
    var s' := Bind(s, t, g);
    forall v | Cell(s', v) && Leaf(s'[v]) && Within(s', rank', v, c) ensures s'[v].kind == Variable && v in d {
      MonoWithin(s, rank, v, c);
    }
    MonoFromLeaves(s', rank', c);
  }

  lemma RedirectedEvolved(s0: Store, r0: seq<nat>, s1: Store, r1: seq<nat>, s: Store, rank: seq<nat>, ng: seq<Ref>,
                          t: Ref, g: Ref, m: map<Ref, Ref>, rank': seq<nat>)
    requires Ranked(s0, r0) && Ranked(s1, r1) && Ranked(s, rank) && Redirecting(s1, r1, s, rank, ng, t, g, m) &&
             InStore(s0, ng)
    requires Cell(s, t) && Cell(s, g) && Ranked(Bind(s, t, g), rank') && t >= |s0|
    requires Evolved(s0, s, rank, Domain(s0, r0, ng))
    ensures Evolved(s0, Bind(s, t, g), rank', Domain(s0, r0, ng))
  {
    var s', d := Bind(s, t, g), Domain(s0, r0, ng);
    forall u | 0 <= u < |s0| && s'[u] != s0[u] ensures u in d && Simple(s', rank', u, d) {
      ChangedUnmoved(s0, r0, s1, r1, s, rank, ng, t, g, m, rank', u);
      UnmovedSimple(s, rank, t, g, rank', u, d);
    }
  }

  /** Variables that have been bound under the enclosing parameters do not move. */
  lemma ChangedUnmoved(s0: Store, r0: seq<nat>, s1: Store, r1: seq<nat>, s: Store, rank: seq<nat>, ng: seq<Ref>,
                       t: Ref, g: Ref, m: map<Ref, Ref>, rank': seq<nat>, u: Ref)
    requires Ranked(s0, r0) && Ranked(s1, r1) && Ranked(s, rank) && Redirecting(s1, r1, s, rank, ng, t, g, m) &&
             InStore(s0, ng)
    requires Cell(s, t) && Cell(s, g) && Ranked(Bind(s, t, g), rank') && Evolved(s0, s, rank, Domain(s0, r0, ng))
    requires Cell(s0, u) && s[u] != s0[u]
    ensures Unmoved(s, rank, Bind(s, t, g), rank', u)
  {
    var k :| 0 <= k < |ng| && Within(s0, r0, u, ng[k]);
    WithinLater(s0, r0, s, rank, u, ng[k]);
    forall v | Cell(s, v) && IsUnbound(s[v]) && Within(s, rank, v, u) ensures NonGeneric(s, rank, v, ng) {
      WithinTrans(s, rank, v, u, ng[k]);
    }
    RedirectedUnmoved(s1, r1, s, rank, ng, t, g, m, rank', u);
  }

  lemma RedirectedScope(s1: Store, r1: seq<nat>, s: Store, rank: seq<nat>, env: TypeEnvironment, ng: seq<Ref>,
                        id: Symbol, t: Ref, g: Ref, m: map<Ref, Ref>, rank': seq<nat>)
    requires Ranked(s1, r1) && Ranked(s, rank) && Redirecting(s1, r1, s, rank, ng, t, g, m)
    requires Cell(s, t) && Cell(s, g) && Ranked(Bind(s, t, g), rank') && Scope(s, rank, env, ng) && Mono(s1, r1, t)
    ensures Scope(Bind(s, t, g), rank', BindType(id, t, env), ng)
  {
    var s' := Bind(s, t, g);
    CellsLater(s, s', env);
    UnmovedContext(s1, r1, s, rank, ng, t, g, m, rank', env);
    forall k | 0 <= k < |ng| ensures Mono(s', rank', ng[k]) {
      RedirectedUnmoved(s1, r1, s, rank, ng, t, g, m, rank', ng[k]);
      UnmovedSimple(s, rank, t, g, rank', ng[k], Domain(s, rank, ng));
    }
    RedirectedCovered(s1, r1, s, rank, ng, t, g, m, rank');
  }

  lemma RedirectedCovered(s1: Store, r1: seq<nat>, s: Store, rank: seq<nat>, ng: seq<Ref>, t: Ref, g: Ref,
                          m: map<Ref, Ref>, rank': seq<nat>)
    requires Ranked(s1, r1) && Ranked(s, rank) && Redirecting(s1, r1, s, rank, ng, t, g, m)
    requires Cell(s, t) && Cell(s, g) && Ranked(Bind(s, t, g), rank') && InStore(Bind(s, t, g), ng) && Mono(s1, r1, t)
    ensures Covered(Bind(s, t, g), rank', t, ng)
  {
    var s' := Bind(s, t, g);
    RedirectedRanked(s1, r1, s, rank, ng, t, g, m);
    GeneralisedCovered(s1, r1, s, rank, ng, t, g, m);
    ElsewhereUnmoved(s, rank, t, g, rank', g);
    forall v | Cell(s', v) && Leaf(s'[v]) && Within(s', rank', v, t)
      ensures s'[v].kind != ErrorKind && (s'[v].kind == Variable ==> NonGeneric(s', rank', v, ng))
    {
      WithinVariable(s', rank', v, t);
      if s'[v].kind == Variable { UnmovedNonGeneric(s1, r1, s, rank, ng, t, g, m, rank', v); }
    }
  }

  /** The definition has every instance of the type of its name. */
  lemma RecDefinitionHas(s0: Store, r0: seq<nat>, s1: Store, r1: seq<nat>, s: Store, rank: seq<nat>,
                         env: TypeEnvironment, ng: seq<Ref>, id: Symbol, value: Expr, t: Ref, g: Ref,
                         m: map<Ref, Ref>, rank': seq<nat>, free: Ref -> Type, a: Type)
    requires Ranked(s0, r0) && Ranked(s1, r1) && Ranked(s, rank) && Scope(s0, r0, env, ng)
    requires Redirecting(s1, r1, s, rank, ng, t, g, m) && RecInferred(s0, r0, s1, r1, env, ng, id, value, t)
    requires Cell(s, t) && Cell(s, g) && Ranked(Bind(s, t, g), rank') && InStore(Bind(s, t, g), ng)
    requires IsInstance(Bind(s, t, g), rank', free, t, a)
    ensures CellsOf(Bind(s, t, g), env)
    ensures HasType(Named(id, iset{a}, ContextOf(Bind(s, t, g), rank', free, env)), value, a)
  {
    hide HasType, Ranked, Evolved, Simple, IsInstance, Resolve, NonGeneric, Bind, Within, Covered, CopyMade,
         RecInferred;
    var d := Domain(s0, r0, ng);
    RedirectedRanked(s1, r1, s, rank, ng, t, g, m);
    SameLength(s, t, g);
    DefinitionAppended(s0, r0, s1, r1, s, rank, env, ng, id, value, t, g, m);
    CellsLater(s, Bind(s, t, g), env);
    RedirectedInstance(s, rank, t, g, rank', free, a);
    var f := InstanceOfGeneralised(s1, r1, s, rank, ng, t, g, m, free, a);
    ContextAgreesLater(s1, r1, s, rank, env, ng, f, free);
    UnmovedContext(s1, r1, s, rank, ng, t, g, m, rank', env);
  }

  lemma SameLength(s: Store, t: Ref, g: Ref)
    requires Cell(s, t)
    ensures |Bind(s, t, g)| == |s|
  {
  }

  lemma DefinitionAppended(s0: Store, r0: seq<nat>, s1: Store, r1: seq<nat>, s: Store, rank: seq<nat>,
                           env: TypeEnvironment, ng: seq<Ref>, id: Symbol, value: Expr, t: Ref, g: Ref,
                           m: map<Ref, Ref>)
    requires Ranked(s0, r0) && Ranked(s1, r1) && Ranked(s, rank) && Scope(s0, r0, env, ng)
    requires Redirecting(s1, r1, s, rank, ng, t, g, m) && RecInferred(s0, r0, s1, r1, env, ng, id, value, t)
    ensures Scope(s, rank, env, ng) && Evolved(s0, s, rank, Domain(s0, r0, ng)) && Appended(s1, r1, s, rank)
    ensures Cell(s, t) && s[t].kind == Variable && EnvCovered(s, rank, env, ng)
    ensures forall free: Ref -> Type ::
              HasType(Named(id, iset{Resolve(s, rank, free, t)}, ContextOf(s, rank, free, env)), value,
                      Resolve(s, rank, free, t))
  {
    var d := Domain(s0, r0, ng);
    AppendedEvolved(s1, r1, s, rank, d);
    RecInferredLater(s0, r0, s1, r1, s, rank, env, ng, id, value, t);
    ScopeLater(s0, r0, s, rank, env, ng);
  }

  /** The body is analysed with the redirected variable as the type of the name. */
  lemma EnterRecursion(s0: Store, r0: seq<nat>, s1: Store, r1: seq<nat>, s: Store, rank: seq<nat>,
                       env: TypeEnvironment, ng: seq<Ref>, id: Symbol, value: Expr, t: Ref, g: Ref, m: map<Ref, Ref>,
                       rank': seq<nat>)
    requires Ranked(s0, r0) && Ranked(s1, r1) && Ranked(s, rank) && Scope(s0, r0, env, ng) && t >= |s0|
    requires Redirecting(s1, r1, s, rank, ng, t, g, m) && RecInferred(s0, r0, s1, r1, env, ng, id, value, t)
    requires Cell(s, t) && Cell(s, g) && Ranked(Bind(s, t, g), rank')
    ensures Scope(Bind(s, t, g), rank', BindType(id, t, env), ng)
    ensures Evolved(s0, Bind(s, t, g), rank', Domain(s0, r0, ng))
  {
    assert Mono(s1, r1, t);
    hide HasType, Ranked, Evolved, RecInferred, Redirecting;
    DefinitionAppended(s0, r0, s1, r1, s, rank, env, ng, id, value, t, g, m);
    RedirectedEvolved(s0, r0, s1, r1, s, rank, ng, t, g, m, rank');
    RedirectedScope(s1, r1, s, rank, env, ng, id, t, g, m, rank');
  }

  lemma InferLetRec(s0: Store, r0: seq<nat>, s1: Store, r1: seq<nat>, s2: Store, r2: seq<nat>, s3: Store,
                    r3: seq<nat>, s: Store, rank: seq<nat>, env: TypeEnvironment, ng: seq<Ref>, id: Symbol,
                    value: Expr, body: Expr, t: Ref, g: Ref, m: map<Ref, Ref>, tb: Ref)
    requires Ranked(s0, r0) && Ranked(s1, r1) && Ranked(s2, r2) && Ranked(s3, r3) && Ranked(s, rank)
    requires Scope(s0, r0, env, ng) && t >= |s0| && InStore(s3, ng)
    requires Redirecting(s1, r1, s2, r2, ng, t, g, m) && RecInferred(s0, r0, s1, r1, env, ng, id, value, t)
    requires Cell(s2, t) && Cell(s2, g) && s3 == Bind(s2, t, g)
    requires Inferred(s3, r3, s, rank, BindType(id, t, env), ng, body, tb)
    ensures Inferred(s0, r0, s, rank, env, ng, LetRec(id, value, body), tb)
  {
    hide Ranked, Evolved, Simple, HasType, Redirecting, RecInferred, Bind, Scope;
    ScopeCells(s0, r0, env, ng);
    var d, d3 := Domain(s0, r0, ng), Domain(s3, r3, ng);
    EnterRecursion(s0, r0, s1, r1, s2, r2, env, ng, id, value, t, g, m, r3);
    DomainLater(s0, r0, s3, r3, ng);
    EvolvedTrans(s0, s3, r3, s, rank, d, d3);
    SimpleWider(s, rank, tb, d3, d);
    forall free: Ref -> Type
      ensures HasType(ContextOf(s, rank, free, env), LetRec(id, value, body), Resolve(s, rank, free, tb)) {
      var back := Through(s, rank, free);
      ContextLater(s3, r3, s, rank, d3, free, BindType(id, t, env));
      ContextLater(s3, r3, s, rank, d3, free, env);
      var c, types := ContextOf(s, rank, free, env), Instances(s3, r3, back, t);
      forall a | a in types ensures HasType(Named(id, iset{a}, c), value, a) {
        RecDefinitionHas(s0, r0, s1, r1, s2, r2, env, ng, id, value, t, g, m, r3, back, a);
      }
      SomeInstance(s3, r3, back, t);
      LetRecType(c, id, value, body, types, Resolve(s, rank, free, tb));
    }
  }

  lemma ScopeCells(s: Store, rank: seq<nat>, env: TypeEnvironment, ng: seq<Ref>)
    requires Ranked(s, rank) && Scope(s, rank, env, ng)
    ensures CellsOf(s, env) && InStore(s, ng)
  {
  }

  // ----- A variable that is kept -----

  /** The name's own variable is part of the type of an enclosing parameter, so that its generalised
      type is itself. Redirecting it would be a circle; it is left alone. */
  ghost predicate Keeping(s1: Store, r1: seq<nat>, s: Store, rank: seq<nat>, ng: seq<Ref>, t: Ref, m: map<Ref, Ref>)
    requires Ranked(s1, r1) && Ranked(s, rank)
  {
    && InStore(s1, ng) && InStore(s, ng) && Cell(s1, t) && IsUnbound(s1[t]) && NonGeneric(s1, r1, t, ng)
    && CopyMade(s1, r1, Generalisation(s1, r1, ng), s, rank, t, t, m)
  }

  lemma KeptFacts(s1: Store, r1: seq<nat>, s: Store, rank: seq<nat>, ng: seq<Ref>, t: Ref, m: map<Ref, Ref>)
    requires Ranked(s1, r1) && Ranked(s, rank) && Keeping(s1, r1, s, rank, ng, t, m)
    ensures Appended(s1, r1, s, rank) && Cell(s, t) && s[t] == s1[t] && InStore(s1, ng) && InStore(s, ng)
    ensures Covered(s, rank, t, ng)
  {
    AppendedNonGeneric(s1, r1, s, rank, t, ng);
    LeavesAreEmpty(s, t);
    forall v | Cell(s, v) && Leaf(s[v]) && Within(s, rank, v, t) ensures v == t { NothingInside(s, rank, t, v); }
  }

  lemma EnterKept(s0: Store, r0: seq<nat>, s1: Store, r1: seq<nat>, s: Store, rank: seq<nat>, env: TypeEnvironment,
                  ng: seq<Ref>, id: Symbol, value: Expr, t: Ref, m: map<Ref, Ref>)
    requires Ranked(s0, r0) && Ranked(s1, r1) && Ranked(s, rank) && Scope(s0, r0, env, ng)
    requires Keeping(s1, r1, s, rank, ng, t, m) && RecInferred(s0, r0, s1, r1, env, ng, id, value, t)
    ensures Scope(s, rank, BindType(id, t, env), ng) && Evolved(s0, s, rank, Domain(s0, r0, ng)) && Cell(s, t)
    ensures RecInferred(s0, r0, s, rank, env, ng, id, value, t)
  {
    KeptFacts(s1, r1, s, rank, ng, t, m);
    AppendedEvolved(s1, r1, s, rank, Domain(s0, r0, ng));
    RecInferredLater(s0, r0, s1, r1, s, rank, env, ng, id, value, t);
    ScopeLater(s0, r0, s, rank, env, ng);
  }

  /** Then the name has one type in the body, too. */
  lemma InferKept(s0: Store, r0: seq<nat>, s1: Store, r1: seq<nat>, s2: Store, r2: seq<nat>, s: Store,
                  rank: seq<nat>, env: TypeEnvironment, ng: seq<Ref>, id: Symbol, value: Expr, body: Expr, t: Ref,
                  m: map<Ref, Ref>, tb: Ref)
    requires Ranked(s0, r0) && Ranked(s1, r1) && Ranked(s2, r2) && Ranked(s, rank) && Scope(s0, r0, env, ng) &&
             InStore(s2, ng)
    requires Keeping(s1, r1, s2, r2, ng, t, m) && RecInferred(s0, r0, s1, r1, env, ng, id, value, t)
    requires Inferred(s2, r2, s, rank, BindType(id, t, env), ng, body, tb)
    ensures Inferred(s0, r0, s, rank, env, ng, LetRec(id, value, body), tb)
  {
    hide Ranked, Evolved, HasType, Keeping, Scope;
    ScopeCells(s0, r0, env, ng);
    var d, d2 := Domain(s0, r0, ng), Domain(s2, r2, ng);
    EnterKept(s0, r0, s1, r1, s2, r2, env, ng, id, value, t, m);
    DomainLater(s0, r0, s2, r2, ng);
    EvolvedTrans(s0, s2, r2, s, rank, d, d2);
    SimpleWider(s, rank, tb, d2, d);
    hide Simple;
    forall free: Ref -> Type
      ensures HasType(ContextOf(s, rank, free, env), LetRec(id, value, body), Resolve(s, rank, free, tb)) {
      var back := Through(s, rank, free);
      ContextLater(s2, r2, s, rank, d2, free, BindType(id, t, env));
      ContextLater(s2, r2, s, rank, d2, free, env);
      OnlyInstance(s2, r2, back, t, d);
      LetRecType(ContextOf(s, rank, free, env), id, value, body, Instances(s2, r2, back, t),
                 Resolve(s, rank, free, tb));
    }
  }
}
