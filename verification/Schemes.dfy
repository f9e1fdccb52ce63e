/** Type schemes as cells: what a type with generic variables can be used as, how that changes
    with the store, and what copying a type does. */
module Schemes {
  import opened Syntax
  import opened TypeCells
  import opened Typing

  // ----- Resolving in changing stores -----

  lemma {:induction false} ResolveAgree(s: Store, rank: seq<nat>, f: Ref -> Type, h: Ref -> Type, c: Ref)
    requires Ranked(s, rank) && Cell(s, c)
    requires forall v :: Cell(s, v) && Leaf(s[v]) && Within(s, rank, v, c) ==> f(v) == h(v)
    ensures Resolve(s, rank, f, c) == Resolve(s, rank, h, c)
    decreases rank[c]
  {
    if Leaf(s[c]) {
      assert Within(s, rank, c, c);
    } else {
      if s[c].first != NULL {
        PartsWithin(s, rank, c, s[c].first);
        ResolveAgree(s, rank, f, h, s[c].first);
      }
      if s[c].second != NULL {
        PartsWithin(s, rank, c, s[c].second);
        ResolveAgree(s, rank, f, h, s[c].second);
      }
    }
  }

  lemma PartsWithin(s: Store, rank: seq<nat>, c: Ref, part: Ref)
    requires Ranked(s, rank) && Cell(s, c) && Cell(s, part) && (part == s[c].first || part == s[c].second)
    ensures forall v :: Cell(s, v) && Within(s, rank, v, part) ==> Within(s, rank, v, c)
  {
  }

  /** The types of the leaves of an earlier store. */
  ghost function Through(s: Store, rank: seq<nat>, free: Ref -> Type): Ref -> Type
    requires Ranked(s, rank)
  {
    v => if Cell(s, v) then Resolve(s, rank, free, v) else TInt
  }

  lemma {:induction false} ResolveLater(s: Store, rank: seq<nat>, s': Store, rank': seq<nat>, free: Ref -> Type, c: Ref)
    requires Ranked(s, rank) && Ranked(s', rank') && Later(s, s') && Cell(s, c)
    ensures Resolve(s', rank', free, c) == Resolve(s, rank, Through(s', rank', free), c)
    decreases rank[c]
  {
    if !IsUnbound(s[c]) {
      assert s'[c] == s[c];
      if s[c].first != NULL { ResolveLater(s, rank, s', rank', free, s[c].first); }
      if s[c].second != NULL { ResolveLater(s, rank, s', rank', free, s[c].second); }
    }
  }

  /** A type without generic variables depends on the unbound variables only. */
  ghost predicate AgreeOnUnbound(s: Store, f: Ref -> Type, h: Ref -> Type) {
    forall v :: Cell(s, v) && IsUnbound(s[v]) ==> f(v) == h(v)
  }

  lemma {:induction false} ResolveMono(s: Store, rank: seq<nat>, f: Ref -> Type, h: Ref -> Type, c: Ref)
    requires Ranked(s, rank) && Cell(s, c) && Mono(s, rank, c) && AgreeOnUnbound(s, f, h)
    ensures Resolve(s, rank, f, c) == Resolve(s, rank, h, c)
    decreases rank[c]
  {
    if s[c].first != NULL { ResolveMono(s, rank, f, h, s[c].first); }
    if s[c].second != NULL { ResolveMono(s, rank, f, h, s[c].second); }
  }

  // ----- Instances -----

  /** Whether `t` is what the cell stands for, for some choice of its generic variables. */
  ghost predicate IsInstance(s: Store, rank: seq<nat>, free: Ref -> Type, c: Ref, t: Type)
    requires Ranked(s, rank) && Cell(s, c)
  {
    exists f: Ref -> Type :: AgreeOnUnbound(s, f, free) && Resolve(s, rank, f, c) == t
  }

  ghost function Instances(s: Store, rank: seq<nat>, free: Ref -> Type, c: Ref): iset<Type>
    requires Ranked(s, rank) && Cell(s, c)
  {
    iset t | IsInstance(s, rank, free, c, t)
  }

  /** Without generic variables there is one instance. */
  lemma InstancesMono(s: Store, rank: seq<nat>, free: Ref -> Type, c: Ref)
    requires Ranked(s, rank) && Cell(s, c) && Mono(s, rank, c)
    ensures Instances(s, rank, free, c) == iset{Resolve(s, rank, free, c)}
  {
    assert AgreeOnUnbound(s, free, free);
    forall t | IsInstance(s, rank, free, c, t) ensures t == Resolve(s, rank, free, c) {
      var f: Ref -> Type :| AgreeOnUnbound(s, f, free) && Resolve(s, rank, f, c) == t;
      ResolveMono(s, rank, f, free, c);
    }
    assert IsInstance(s, rank, free, c, Resolve(s, rank, free, c));
  }

  lemma InstanceAgrees(s: Store, rank: seq<nat>, free: Ref -> Type, free': Ref -> Type, c: Ref, t: Type)
    requires Ranked(s, rank) && Cell(s, c) && IsInstance(s, rank, free, c, t)
    requires forall v :: Cell(s, v) && IsUnbound(s[v]) && Within(s, rank, v, c) ==> free(v) == free'(v)
    ensures IsInstance(s, rank, free', c, t)
  {
    var f: Ref -> Type :| AgreeOnUnbound(s, f, free) && Resolve(s, rank, f, c) == t;
    var f': Ref -> Type := v => if Cell(s, v) && IsUnbound(s[v]) then free'(v) else f(v);
    ResolveAgree(s, rank, f, f', c);
    assert AgreeOnUnbound(s, f', free');
  }

  /** The instances depend on the unbound variables of the type only. */
  lemma InstancesAgree(s: Store, rank: seq<nat>, free: Ref -> Type, free': Ref -> Type, c: Ref)
    requires Ranked(s, rank) && Cell(s, c)
    requires forall v :: Cell(s, v) && IsUnbound(s[v]) && Within(s, rank, v, c) ==> free(v) == free'(v)
    ensures Instances(s, rank, free, c) == Instances(s, rank, free', c)
  {
    forall t ensures IsInstance(s, rank, free, c, t) <==> IsInstance(s, rank, free', c, t) {
      if IsInstance(s, rank, free, c, t) { InstanceAgrees(s, rank, free, free', c, t); }
      if IsInstance(s, rank, free', c, t) { InstanceAgrees(s, rank, free', free, c, t); }
    }
  }

  lemma ThroughAgrees(s: Store, s': Store, rank': seq<nat>, d: iset<Ref>, f: Ref -> Type, h: Ref -> Type)
    requires Ranked(s', rank') && Evolved(s, s', rank', d) && AgreeOnUnbound(s', f, h)
    ensures AgreeOnUnbound(s, Through(s', rank', f), Through(s', rank', h))
  {
    forall v | Cell(s, v) && IsUnbound(s[v]) ensures Through(s', rank', f)(v) == Through(s', rank', h)(v) {
      if s'[v] != s[v] { ResolveMono(s', rank', f, h, v); }
    }
  }

  /** A scheme keeps its instances. */
  lemma InstancesLater(s: Store, rank: seq<nat>, s': Store, rank': seq<nat>, d: iset<Ref>, free: Ref -> Type, c: Ref)
    requires Ranked(s, rank) && Ranked(s', rank') && Evolved(s, s', rank', d) && Cell(s, c)
    ensures Instances(s', rank', free, c) == Instances(s, rank, Through(s', rank', free), c)
  {
    var back := Through(s', rank', free);
    forall t | IsInstance(s', rank', free, c, t) ensures IsInstance(s, rank, back, c, t) {
      var f: Ref -> Type :| AgreeOnUnbound(s', f, free) && Resolve(s', rank', f, c) == t;
      ResolveLater(s, rank, s', rank', f, c);
      ThroughAgrees(s, s', rank', d, f, free);
      assert AgreeOnUnbound(s, Through(s', rank', f), back);
    }
    forall t | IsInstance(s, rank, back, c, t) ensures IsInstance(s', rank', free, c, t) {
      var f: Ref -> Type :| AgreeOnUnbound(s, f, back) && Resolve(s, rank, f, c) == t;
      InstanceLater(s, rank, s', rank', d, free, c, f);
    }
  }

  lemma InstanceLater(s: Store, rank: seq<nat>, s': Store, rank': seq<nat>, d: iset<Ref>, free: Ref -> Type, c: Ref,
                      f: Ref -> Type)
    requires Ranked(s, rank) && Ranked(s', rank') && Evolved(s, s', rank', d) && Cell(s, c)
    requires AgreeOnUnbound(s, f, Through(s', rank', free))
    ensures IsInstance(s', rank', free, c, Resolve(s, rank, f, c))
  {
    var f' := Extended(s, f, free);
    ExtendedAgrees(s, s', rank', d, free, f);
    hide Ranked, Within, Evolved, Through, Extended, Resolve;
    ResolveLater(s, rank, s', rank', f', c);
    ResolveAgree(s, rank, Through(s', rank', f'), f, c);
  }

  /** Types for the generic variables of an earlier store, and the given ones for variables. */
  ghost function Extended(s: Store, f: Ref -> Type, free: Ref -> Type): Ref -> Type {
    v => if Cell(s, v) && s[v].kind != Variable then f(v) else free(v)
  }

  lemma ExtendedAgrees(s: Store, s': Store, rank': seq<nat>, d: iset<Ref>, free: Ref -> Type, f: Ref -> Type)
    requires Ranked(s', rank') && Evolved(s, s', rank', d) && AgreeOnUnbound(s, f, Through(s', rank', free))
    ensures Later(s, s') && AgreeOnUnbound(s', Extended(s, f, free), free)
    ensures forall v :: Cell(s, v) && Leaf(s[v]) ==> Through(s', rank', Extended(s, f, free))(v) == f(v)
  {
    var f' := Extended(s, f, free);
    assert AgreeOnUnbound(s', f', free);
    ThroughAgrees(s, s', rank', d, f', free);
    forall v | Cell(s, v) && Leaf(s[v]) ensures Through(s', rank', f')(v) == f(v) {
      if s[v].kind != Variable { LeafThrough(s, s', rank', f', v); }
    }
  }

  lemma LeafThrough(s: Store, s': Store, rank': seq<nat>, f: Ref -> Type, v: Ref)
    requires Ranked(s', rank') && Later(s, s') && Cell(s, v) && Leaf(s[v]) && s[v].kind != Variable
    ensures Through(s', rank', f)(v) == f(v)
  {
    assert s'[v] == s[v];
  }

  // ----- Type environments -----

  /** The types of the names in scope, innermost first. */
  datatype TypeEnvironment = Nothing | BindType(id: Symbol, type_: Ref, parent: TypeEnvironment)

  predicate CellsOf(s: Store, env: TypeEnvironment) {
    env.BindType? ==> Cell(s, env.type_) && CellsOf(s, env.parent)
  }

  ghost function ContextOf(s: Store, rank: seq<nat>, free: Ref -> Type, env: TypeEnvironment): Context
    requires Ranked(s, rank) && CellsOf(s, env)
  {
    match env
    case Nothing => NoNames
    case BindType(id, c, parent) => Named(id, Instances(s, rank, free, c), ContextOf(s, rank, free, parent))
  }

  lemma {:induction false} CellsLater(s: Store, s': Store, env: TypeEnvironment)
    requires |s| <= |s'| && CellsOf(s, env)
    ensures CellsOf(s', env)
  {
    if env.BindType? { CellsLater(s, s', env.parent); }
  }

  lemma {:induction false} ContextLater(s: Store, rank: seq<nat>, s': Store, rank': seq<nat>, d: iset<Ref>,
                                        free: Ref -> Type, env: TypeEnvironment)
    requires Ranked(s, rank) && Ranked(s', rank') && Evolved(s, s', rank', d) && CellsOf(s, env) && CellsOf(s', env)
    ensures ContextOf(s', rank', free, env) == ContextOf(s, rank, Through(s', rank', free), env)
  {
    if env.BindType? {
      InstancesLater(s, rank, s', rank', d, free, env.type_);
      ContextLater(s, rank, s', rank', d, free, env.parent);
    }
  }

  // ----- Non-generic variables -----

  /** A variable is part of one of the types of enclosing parameters. */
  ghost predicate NonGeneric(s: Store, rank: seq<nat>, a: Ref, ng: seq<Ref>)
    requires Ranked(s, rank) && Cell(s, a) && forall k :: 0 <= k < |ng| ==> Cell(s, ng[k])
  {
    exists k :: 0 <= k < |ng| && Within(s, rank, a, ng[k])
  }

  /** The unbound variables of a type are non-generic, and it has nothing to do with an error. */
  ghost predicate Covered(s: Store, rank: seq<nat>, c: Ref, ng: seq<Ref>)
    requires Ranked(s, rank) && Cell(s, c) && forall k :: 0 <= k < |ng| ==> Cell(s, ng[k])
  {
    forall v :: Cell(s, v) && Leaf(s[v]) && Within(s, rank, v, c) ==>
      s[v].kind != ErrorKind && (s[v].kind == Variable ==> NonGeneric(s, rank, v, ng))
  }

  ghost predicate EnvCovered(s: Store, rank: seq<nat>, env: TypeEnvironment, ng: seq<Ref>)
    requires Ranked(s, rank) && CellsOf(s, env) && forall k :: 0 <= k < |ng| ==> Cell(s, ng[k])
  {
    env.BindType? ==> Covered(s, rank, env.type_, ng) && EnvCovered(s, rank, env.parent, ng)
  }

  /** Contexts agree when they agree about the non-generic variables. */
  lemma {:induction false} ContextAgrees(s: Store, rank: seq<nat>, f: Ref -> Type, h: Ref -> Type,
                                         env: TypeEnvironment, ng: seq<Ref>)
    requires Ranked(s, rank) && CellsOf(s, env) && forall k :: 0 <= k < |ng| ==> Cell(s, ng[k])
    requires EnvCovered(s, rank, env, ng)
    requires forall v :: Cell(s, v) && IsUnbound(s[v]) && NonGeneric(s, rank, v, ng) ==> f(v) == h(v)
    ensures ContextOf(s, rank, f, env) == ContextOf(s, rank, h, env)
  {
    if env.BindType? {
      InstancesAgree(s, rank, f, h, env.type_);
      ContextAgrees(s, rank, f, h, env.parent, ng);
    }
  }

  lemma CoveredLater(s: Store, rank: seq<nat>, s': Store, rank': seq<nat>, d: iset<Ref>, c: Ref, ng: seq<Ref>)
    requires Ranked(s, rank) && Ranked(s', rank') && Evolved(s, s', rank', d) && Cell(s, c)
    requires forall k :: 0 <= k < |ng| ==> Cell(s, ng[k])
    requires Covered(s, rank, c, ng)
    ensures Covered(s', rank', c, ng)
  {
    forall v | Cell(s', v) && Leaf(s'[v]) && Within(s', rank', v, c)
      ensures s'[v].kind != ErrorKind && (s'[v].kind == Variable ==> NonGeneric(s', rank', v, ng))
    {
      var u := LeafLater(s, rank, s', rank', v, c);
      if s'[u] != s[u] {
        MonoWithin(s', rank', v, u);
      } else {
        assert v == u;
      }
      if s[u].kind == Variable {
        var k :| 0 <= k < |ng| && Within(s, rank, u, ng[k]);
        WithinLater(s, rank, s', rank', u, ng[k]);
        WithinTrans(s', rank', v, u, ng[k]);
      }
    }
  }

  lemma {:induction false} EnvCoveredLater(s: Store, rank: seq<nat>, s': Store, rank': seq<nat>, d: iset<Ref>,
                                           env: TypeEnvironment, ng: seq<Ref>)
    requires Ranked(s, rank) && Ranked(s', rank') && Evolved(s, s', rank', d) && CellsOf(s, env) && CellsOf(s', env)
    requires forall k :: 0 <= k < |ng| ==> Cell(s, ng[k])
    requires EnvCovered(s, rank, env, ng)
    ensures EnvCovered(s', rank', env, ng)
  {
    if env.BindType? {
      CoveredLater(s, rank, s', rank', d, env.type_, ng);
      EnvCoveredLater(s, rank, s', rank', d, env.parent, ng);
    }
  }

  /** What an inference under these parameters may bind: their variables, and new ones. */
  ghost function Domain(s: Store, rank: seq<nat>, ng: seq<Ref>): iset<Ref>
    requires Ranked(s, rank) && forall k :: 0 <= k < |ng| ==> Cell(s, ng[k])
  {
    iset v: Ref | v >= |s| || (Cell(s, v) && IsUnbound(s[v]) && NonGeneric(s, rank, v, ng))
  }

  lemma DomainLater(s: Store, rank: seq<nat>, s': Store, rank': seq<nat>, ng: seq<Ref>)
    requires Ranked(s, rank) && Ranked(s', rank') && forall k :: 0 <= k < |ng| ==> Cell(s, ng[k])
    requires Evolved(s, s', rank', Domain(s, rank, ng))
    ensures |s| <= |s'| && Domain(s', rank', ng) <= Domain(s, rank, ng)
  {
    var d := Domain(s, rank, ng);
    forall v | v in Domain(s', rank', ng) ensures v in d {
      if v < |s'| {
        var k :| 0 <= k < |ng| && Within(s', rank', v, ng[k]);
        assert Confined(s, rank, ng[k], d);
        EvolvedConfined(s, rank, s', rank', d, d, ng[k]);
      }
    }
  }
}
