/** Copies of types: generalisation replaces variables by generic variables, instantiation generic
    variables by new variables. */
module Copying {
  import opened Syntax
  import opened TypeCells
  import opened Typing
  import opened Schemes

  // ----- Added cells -----

  ghost predicate Appended(s: Store, rank: seq<nat>, s': Store, rank': seq<nat>)
    requires Ranked(s, rank) && Ranked(s', rank')
  {
    |s| <= |s'| && (forall i :: 0 <= i < |s| ==> s'[i] == s[i] && rank'[i] == rank[i])
  }

  lemma {:induction false} AppendedSame(s: Store, rank: seq<nat>, s': Store, rank': seq<nat>, c: Ref)
    requires Ranked(s, rank) && Ranked(s', rank') && Appended(s, rank, s', rank') && Cell(s, c)
    ensures Pruned(s', rank', c) == Pruned(s, rank, c)
    ensures forall v :: Cell(s', v) && Within(s', rank', v, c) ==> Cell(s, v) && Within(s, rank, v, c)
    ensures forall v :: Cell(s, v) && Within(s, rank, v, c) ==> Within(s', rank', v, c)
    ensures Mono(s', rank', c) == Mono(s, rank, c)
    decreases rank[c]
  {
    if s[c].first != NULL { AppendedSame(s, rank, s', rank', s[c].first); }
    if s[c].second != NULL { AppendedSame(s, rank, s', rank', s[c].second); }
  }

  lemma AppendedNonGeneric(s: Store, rank: seq<nat>, s': Store, rank': seq<nat>, v: Ref, ng: seq<Ref>)
    requires Ranked(s, rank) && Ranked(s', rank') && Appended(s, rank, s', rank') && Cell(s, v)
    requires forall k :: 0 <= k < |ng| ==> Cell(s, ng[k])
    ensures Cell(s', v) && forall k :: 0 <= k < |ng| ==> Cell(s', ng[k])
    ensures NonGeneric(s', rank', v, ng) <==> NonGeneric(s, rank, v, ng)
  {
    forall k | 0 <= k < |ng| ensures Within(s', rank', v, ng[k]) <==> Within(s, rank, v, ng[k]) {
      AppendedSame(s, rank, s', rank', ng[k]);
    }
  }

  // ----- Copies -----

  /** Type `g` is type `t` with every leaf of one kind replaced as `m` says; the other leaves are
      shared. */
  ghost predicate Copied(s: Store, rank: seq<nat>, kind: Kind, m: map<Ref, Ref>, t: Ref, g: Ref)
    requires Ranked(s, rank) && Cell(s, t)
    decreases rank[t], 1
  {
    CopiedCell(s, rank, kind, m, Pruned(s, rank, t), g)
  }

  ghost predicate CopiedCell(s: Store, rank: seq<nat>, kind: Kind, m: map<Ref, Ref>, p: Ref, g: Ref)
    requires Ranked(s, rank) && Cell(s, p)
    decreases rank[p], 0
  {
    && Cell(s, g)
    && match s[p].kind
       case Func => s[g].kind == Func && Copied(s, rank, kind, m, s[p].first, s[g].first) &&
         Copied(s, rank, kind, m, s[p].second, s[g].second)
       case TupleKind => s[g].kind == TupleKind && Copied(s, rank, kind, m, s[p].first, s[g].first) &&
         Copied(s, rank, kind, m, s[p].second, s[g].second)
       case FinalKind => s[g].kind == FinalKind && Copied(s, rank, kind, m, s[p].first, s[g].first)
       case k => if k == kind then p in m && g == m[p] else g == p
  }

  lemma {:induction false} CopiedMore(s: Store, rank: seq<nat>, m: map<Ref, Ref>, s': Store, rank': seq<nat>,
                                      m': map<Ref, Ref>, kind: Kind, t: Ref, g: Ref)
    requires Ranked(s, rank) && Ranked(s', rank') && Appended(s, rank, s', rank') && Cell(s, t)
    requires forall p :: p in m ==> p in m' && m'[p] == m[p]
    requires Copied(s, rank, kind, m, t, g)
    ensures Copied(s', rank', kind, m', t, g)
    decreases rank[t]
  {
    var p := Pruned(s, rank, t);
    AppendedSame(s, rank, s', rank', t);
    if s[p].kind in {Func, TupleKind, FinalKind} {
      CopiedMore(s, rank, m, s', rank', m', kind, s[p].first, s[g].first);
      if s[p].kind != FinalKind { CopiedMore(s, rank, m, s', rank', m', kind, s[p].second, s[g].second); }
    }
  }

  /** The replacements are leaves, and only leaves of the one kind are replaced. */
  ghost predicate LeafMap(s: Store, kind: Kind, m: map<Ref, Ref>) {
    forall p :: p in m ==> Cell(s, p) && Leaf(s[p]) && s[p].kind == kind && Cell(s, m[p]) && Leaf(s[m[p]])
  }

  /** Choosing types after replacing. */
  ghost function After(m: map<Ref, Ref>, f: Ref -> Type): Ref -> Type {
    i => if i in m then f(m[i]) else f(i)
  }

  lemma {:induction false} PrunedResolve(s: Store, rank: seq<nat>, f: Ref -> Type, t: Ref)
    requires Ranked(s, rank) && Cell(s, t)
    ensures Resolve(s, rank, f, Pruned(s, rank, t)) == Resolve(s, rank, f, t)
    decreases rank[t]
  {
    if IsBound(s[t]) { PrunedResolve(s, rank, f, s[t].first); }
  }

  /** A copy stands for what the original does when its leaves get the types of the replacements. */
  lemma {:induction false} CopiedResolve(s: Store, rank: seq<nat>, kind: Kind, m: map<Ref, Ref>, t: Ref, g: Ref,
                                         f: Ref -> Type)
    requires Ranked(s, rank) && Cell(s, t) && Copied(s, rank, kind, m, t, g) && LeafMap(s, kind, m) &&
             kind in {Variable, Generic}
    ensures Cell(s, g) && Resolve(s, rank, f, g) == Resolve(s, rank, After(m, f), t)
    decreases rank[t]
  {
    var p := Pruned(s, rank, t);
    PrunedResolve(s, rank, After(m, f), t);
    if s[p].kind in {Func, TupleKind, FinalKind} {
      CopiedResolve(s, rank, kind, m, s[p].first, s[g].first, f);
      if s[p].kind != FinalKind { CopiedResolve(s, rank, kind, m, s[p].second, s[g].second, f); }
    }
  }

  /** The leaves of a copy are replacements, or leaves of the original that are not replaced. */
  lemma {:induction false} CopiedLeaf(s: Store, rank: seq<nat>, kind: Kind, m: map<Ref, Ref>, t: Ref, g: Ref, v: Ref)
    returns (u: Ref)
    requires Ranked(s, rank) && Cell(s, t) && Copied(s, rank, kind, m, t, g) && LeafMap(s, kind, m) &&
             kind in {Variable, Generic}
    requires Cell(s, g) && Cell(s, v) && Leaf(s[v]) && Within(s, rank, v, g)
    ensures Cell(s, u) && Leaf(s[u]) && Within(s, rank, u, t)
    ensures if s[u].kind == kind then u in m && v == m[u] else v == u
    decreases rank[t]
  {
    var p := Pruned(s, rank, t);
    WithinPruned(s, rank, t);
    if s[p].kind in {Func, TupleKind, FinalKind} {
      if s[p].kind == FinalKind || Within(s, rank, v, s[g].first) {
        u := CopiedLeaf(s, rank, kind, m, s[p].first, s[g].first, v);
        WithinTrans(s, rank, u, s[p].first, p);
      } else {
        u := CopiedLeaf(s, rank, kind, m, s[p].second, s[g].second, v);
        WithinTrans(s, rank, u, s[p].second, p);
      }
      WithinTrans(s, rank, u, p, t);
    } else {
      u := p;
    }
  }
}
