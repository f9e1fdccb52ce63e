/** Generalising a type and then instantiating it gives the type back, up to new names for exactly
    the variables that are not part of enclosing parameters. */
module GeneraliseInstantiate {
  import opened TypeCells
  import opened Schemes
  import opened Copying
  import opened Memos
  import opened CopySteps
  import opened Inference
  import opened RecursiveDefinitions

  /** First one replacement, then the other. */
  ghost function Composed(m: map<Ref, Ref>, n: map<Ref, Ref>): map<Ref, Ref> {
    map v | v in m :: if m[v] in n then n[m[v]] else m[v]
  }

  lemma {:induction false} CopiedTwice(s: Store, rank: seq<nat>, m: map<Ref, Ref>, n: map<Ref, Ref>, t: Ref, g: Ref,
                                       f: Ref)
    requires Ranked(s, rank) && Cell(s, t) && Mono(s, rank, t) && LeafMap(s, Variable, m) && LeafMap(s, Generic, n)
    requires Copied(s, rank, Variable, m, t, g) && Cell(s, g) && Copied(s, rank, Generic, n, g, f)
    ensures Copied(s, rank, Variable, Composed(m, n), t, f)
    decreases rank[t]
  {
    var p := Pruned(s, rank, t);
    WithinPruned(s, rank, t);
    MonoWithin(s, rank, p, t);
    if s[p].kind in {Func, TupleKind, FinalKind} {
      CopiesAreCells(s, rank, Variable, m, s[p].first, s[g].first);
      CopiedTwice(s, rank, m, n, s[p].first, s[g].first, s[f].first);
      if s[p].kind != FinalKind {
        CopiesAreCells(s, rank, Variable, m, s[p].second, s[g].second);
        CopiedTwice(s, rank, m, n, s[p].second, s[g].second, s[f].second);
      }
    }
  }

  /** What becomes of one variable. */
  lemma Renamed(s0: Store, r0: seq<nat>, s1: Store, r1: seq<nat>, s: Store, rank: seq<nat>, ng: seq<Ref>,
                t: Ref, g: Ref, f: Ref, m: map<Ref, Ref>, n: map<Ref, Ref>, v: Ref)
    requires Ranked(s0, r0) && Ranked(s1, r1) && Ranked(s, rank) && InStore(s0, ng) && Cell(s0, t)
    requires CopyMade(s0, r0, Generalisation(s0, r0, ng), s1, r1, t, g, m) &&
             CopyMade(s1, r1, INSTANTIATION, s, rank, g, f, n)
    requires Cell(s0, v) && IsUnbound(s0[v]) && Within(s0, r0, v, t)
    ensures v in m
    ensures if NonGeneric(s0, r0, v, ng) then m[v] == v && v !in n
            else m[v] in n && n[m[v]] >= |s1| && Cell(s, n[m[v]]) && s[n[m[v]]] == VARIABLE
  {
    MadeLeafMap(s0, r0, Generalisation(s0, r0, ng), s1, r1, t, g, m);
    AppendedSame(s0, r0, s1, r1, t);
    assert s1[v] == s0[v];
    CopiedLeafBack(s1, r1, Variable, m, t, g, v);
    if !NonGeneric(s0, r0, v, ng) {
      MadeLeafMap(s1, r1, INSTANTIATION, s, rank, g, f, n);
      AppendedSame(s1, r1, s, rank, g);
      assert s[m[v]] == s1[m[v]] == GENERIC;
      CopiedLeafBack(s, rank, Generic, n, g, f, m[v]);
    }
  }

  lemma BothCopies(s0: Store, r0: seq<nat>, s1: Store, r1: seq<nat>, s: Store, rank: seq<nat>, ng: seq<Ref>,
                   t: Ref, g: Ref, f: Ref, m: map<Ref, Ref>, n: map<Ref, Ref>)
    requires Ranked(s0, r0) && Ranked(s1, r1) && Ranked(s, rank) && InStore(s0, ng) && Cell(s0, t) && Mono(s0, r0, t)
    requires CopyMade(s0, r0, Generalisation(s0, r0, ng), s1, r1, t, g, m) &&
             CopyMade(s1, r1, INSTANTIATION, s, rank, g, f, n)
    ensures Cell(s, t) && Copied(s, rank, Variable, Composed(m, n), t, f)
  {
    MadeLeafMap(s0, r0, Generalisation(s0, r0, ng), s1, r1, t, g, m);
    MadeLeafMap(s1, r1, INSTANTIATION, s, rank, g, f, n);
    AppendedSame(s0, r0, s1, r1, t);
    AppendedSame(s1, r1, s, rank, t);
    CopiedMore(s1, r1, m, s, rank, m, Variable, t, g);
    assert LeafMap(s, Variable, m);
    CopiedTwice(s, rank, m, n, t, g, f);
  }

  lemma MadeKeys(s0: Store, r0: seq<nat>, plan: Plan, s: Store, rank: seq<nat>, t: Ref, g: Ref, m: map<Ref, Ref>)
    requires Ranked(s0, r0) && Ranked(s, rank) && Cell(s0, t) && CopyMade(s0, r0, plan, s, rank, t, g, m)
    ensures forall v :: v in m ==>
              Cell(s0, v) && Leaf(s0[v]) && s0[v].kind == plan.kind && Within(s0, r0, v, t) && m[v] < |s|
    ensures forall v, w :: v in m && w in m && v != w ==> m[v] != m[w]
  {
  }

  /** The renaming that generalising and instantiating a type amounts to: it is one-to-one, keeps
      the variables of enclosing parameters, and replaces each of the others by a new variable. */
  lemma GeneraliseThenInstantiate(s0: Store, r0: seq<nat>, s1: Store, r1: seq<nat>, s: Store, rank: seq<nat>,
                                  ng: seq<Ref>, t: Ref, g: Ref, f: Ref, m: map<Ref, Ref>, n: map<Ref, Ref>)
    returns (renaming: map<Ref, Ref>)
    requires Ranked(s0, r0) && Ranked(s1, r1) && Ranked(s, rank) && InStore(s0, ng) && Cell(s0, t) && Mono(s0, r0, t)
    requires CopyMade(s0, r0, Generalisation(s0, r0, ng), s1, r1, t, g, m)
    requires CopyMade(s1, r1, INSTANTIATION, s, rank, g, f, n)
    ensures Cell(s, t) && Copied(s, rank, Variable, renaming, t, f)
    ensures forall v :: v in renaming <==> Cell(s0, v) && IsUnbound(s0[v]) && Within(s0, r0, v, t)
    ensures forall v :: v in renaming ==>
              if NonGeneric(s0, r0, v, ng) then renaming[v] == v
              else renaming[v] >= |s1| && Cell(s, renaming[v]) && s[renaming[v]] == VARIABLE
    ensures forall v, w :: v in renaming && w in renaming && v != w ==> renaming[v] != renaming[w]
  {
    renaming := Composed(m, n);
    BothCopies(s0, r0, s1, r1, s, rank, ng, t, g, f, m, n);
    MadeKeys(s0, r0, Generalisation(s0, r0, ng), s1, r1, t, g, m);
    MadeKeys(s1, r1, INSTANTIATION, s, rank, g, f, n);
    hide Ranked, CopyMade, Copied, Within, NonGeneric, InStore, Mono;
    forall v | Cell(s0, v) && IsUnbound(s0[v]) && Within(s0, r0, v, t)
      ensures v in renaming
      ensures if NonGeneric(s0, r0, v, ng) then renaming[v] == v
              else renaming[v] >= |s1| && Cell(s, renaming[v]) && s[renaming[v]] == VARIABLE
    {
      Renamed(s0, r0, s1, r1, s, rank, ng, t, g, f, m, n, v);
    }
    forall v, w | v in renaming && w in renaming && v != w ensures renaming[v] != renaming[w] {
      Renamed(s0, r0, s1, r1, s, rank, ng, t, g, f, m, n, v);
      Renamed(s0, r0, s1, r1, s, rank, ng, t, g, f, m, n, w);
    }
  }
}
