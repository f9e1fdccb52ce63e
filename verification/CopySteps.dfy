/** What one call of the copying functions achieves, case by case. */
module CopySteps {
  import opened TypeCells
  import opened Schemes
  import opened Copying
  import opened Memos

  /** A type has been copied: memos and cells have been added, and the copy is right. */
  ghost predicate CopyStep(s0: Store, r0: seq<nat>, plan: Plan, s: Store, rank: seq<nat>, s': Store, rank': seq<nat>,
                           t: Ref, g: Ref)
    requires Ranked(s0, r0) && Cell(s0, t)
  {
    && CopyingTypes(s0, r0, plan, s, rank) && CopyingTypes(s0, r0, plan, s', rank')
    && Appended(Erased(s), rank, Erased(s'), rank')
    && (forall p :: p in Replacements(s0, s) ==>
          p in Replacements(s0, s') && Replacements(s0, s')[p] == Replacements(s0, s)[p])
    && (forall p :: p in Replacements(s0, s') ==> p in Replacements(s0, s) || (Cell(s0, p) && Within(s0, r0, p, t)))
    && Cell(s', t) && Copied(Erased(s'), rank', plan.kind, Replacements(s0, s'), t, g)
  }

  /** Where a type leads is the same throughout. */
  lemma PrunedThroughout(s0: Store, r0: seq<nat>, plan: Plan, s: Store, rank: seq<nat>, t: Ref)
    requires CopyingTypes(s0, r0, plan, s, rank) && Cell(s0, t)
    ensures Cell(s, t) && Pruned(Erased(s), rank, t) == Pruned(s0, r0, t)
    ensures var p := Pruned(s0, r0, t);
            && Within(s0, r0, p, t) && s[p].kind == s0[p].kind &&
               (s[p] != s0[p] ==> Leaf(s0[p]) && s0[p].kind == plan.kind)
            && s[p].first == s0[p].first && (s0[p].kind != plan.kind ==> s[p] == s0[p])
  {
    AppendedSame(s0, r0, Erased(s), rank, t);
    WithinPruned(s0, r0, t);
    assert CopyingCell(s0, plan, s, rank, Pruned(s0, r0, t));
  }

  lemma IsCopied(s: Store, rank: seq<nat>, kind: Kind, m: map<Ref, Ref>, t: Ref)
    requires Ranked(s, rank) && Cell(s, t) && Pruned(s, rank, t) in m && Cell(s, m[Pruned(s, rank, t)])
    requires s[Pruned(s, rank, t)].kind == kind && kind in {Variable, Generic}
    ensures Copied(s, rank, kind, m, t, m[Pruned(s, rank, t)])
  {
  }

  /** One more leaf has a memo. */
  lemma IsCopyStep(s0: Store, r0: seq<nat>, plan: Plan, s: Store, rank: seq<nat>, s': Store, rank': seq<nat>, t: Ref,
                   p: Ref, g: Ref)
    requires Ranked(s0, r0) && Cell(s0, t) && Cell(s', t)
    requires CopyingTypes(s0, r0, plan, s, rank) && CopyingTypes(s0, r0, plan, s', rank')
    requires Appended(Erased(s), rank, Erased(s'), rank')
    requires p !in Replacements(s0, s) && Replacements(s0, s') == Replacements(s0, s)[p := g]
    requires Cell(s0, p) && Within(s0, r0, p, t)
    requires Copied(Erased(s'), rank', plan.kind, Replacements(s0, s'), t, g)
    ensures CopyStep(s0, r0, plan, s, rank, s', rank', t, g)
  {
    hide CopyingTypes, Ranked, Appended, Replacements, Within, Copied;
  }

  /** A leaf that has been met before. */
  lemma StepMet(s0: Store, r0: seq<nat>, plan: Plan, s: Store, rank: seq<nat>, t: Ref)
    requires CopyingTypes(s0, r0, plan, s, rank) && Cell(s0, t) && s[Pruned(s0, r0, t)] != s0[Pruned(s0, r0, t)]
    ensures CopyStep(s0, r0, plan, s, rank, s, rank, t, s[Pruned(s0, r0, t)].second)
  {
    PrunedThroughout(s0, r0, plan, s, rank, t);
    var p := Pruned(s0, r0, t);
    assert CopyingCell(s0, plan, s, rank, p);
    assert p in Replacements(s0, s);
  }

  /** A leaf that is kept. */
  lemma StepKeep(s0: Store, r0: seq<nat>, plan: Plan, s: Store, rank: seq<nat>, t: Ref)
    requires CopyingTypes(s0, r0, plan, s, rank) && Cell(s0, t)
    requires var p := Pruned(s0, r0, t);
             s[p] == s0[p] && Leaf(s0[p]) && s0[p].kind == plan.kind && p in plan.keep
    ensures CopyStep(s0, r0, plan, s, rank, Kept(s, Pruned(s0, r0, t)), rank, t, Pruned(s0, r0, t))
  {
    var p := Pruned(s0, r0, t);
    Keep(s0, r0, plan, s, rank, p);
    PrunedThroughout(s0, r0, plan, s, rank, t);
    PrunedThroughout(s0, r0, plan, Kept(s, p), rank, t);
    assert p !in Replacements(s0, s) && plan.kind in {Variable, Generic} && |Kept(s, p)| == |s|;
    assert Erased(Kept(s, p))[p].kind == s0[p].kind;
    hide *;
    IsCopied(Erased(Kept(s, p)), rank, plan.kind, Replacements(s0, Kept(s, p)), t);
    IsCopyStep(s0, r0, plan, s, rank, Kept(s, p), rank, t, p, p);
  }

  /** A leaf that is replaced. */
  lemma StepReplace(s0: Store, r0: seq<nat>, plan: Plan, s: Store, rank: seq<nat>, t: Ref)
    requires CopyingTypes(s0, r0, plan, s, rank) && Cell(s0, t)
    requires var p := Pruned(s0, r0, t);
             s[p] == s0[p] && Leaf(s0[p]) && s0[p].kind == plan.kind && p !in plan.keep
    ensures CopyStep(s0, r0, plan, s, rank, Replaced(s, Pruned(s0, r0, t), plan.leaf), rank + [LeafRank(plan.leaf)],
                     t, |s|)
  {
    var p := Pruned(s0, r0, t);
    var s', rank' := Replaced(s, p, plan.leaf), rank + [LeafRank(plan.leaf)];
    Replace(s0, r0, plan, s, rank, p);
    PrunedThroughout(s0, r0, plan, s, rank, t);
    PrunedThroughout(s0, r0, plan, s', rank', t);
    assert p !in Replacements(s0, s) && plan.kind in {Variable, Generic} && |s'| == |s| + 1;
    assert Erased(s')[p].kind == s0[p].kind;
    hide *;
    IsCopied(Erased(s'), rank', plan.kind, Replacements(s0, s'), t);
    IsCopyStep(s0, r0, plan, s, rank, s', rank', t, p, |s|);
  }

  /** Anything else without arguments is shared. */
  lemma StepShare(s0: Store, r0: seq<nat>, plan: Plan, s: Store, rank: seq<nat>, t: Ref)
    requires CopyingTypes(s0, r0, plan, s, rank) && Cell(s0, t)
    requires s0[Pruned(s0, r0, t)].kind !in {plan.kind, Func, TupleKind, FinalKind}
    ensures CopyStep(s0, r0, plan, s, rank, s, rank, t, Pruned(s0, r0, t))
  {
    PrunedThroughout(s0, r0, plan, s, rank, t);
  }

  // ----- Arguments -----

  /** The memos of one store are in another, where there are only more for parts of `t`. */
  ghost predicate MoreMemos(s0: Store, r0: seq<nat>, s: Store, s': Store, t: Ref)
    requires Ranked(s0, r0) && Cell(s0, t) && |s0| <= |s| && |s0| <= |s'|
  {
    && (forall p :: p in Replacements(s0, s) ==>
          p in Replacements(s0, s') && Replacements(s0, s')[p] == Replacements(s0, s)[p])
    && (forall p :: p in Replacements(s0, s') ==> p in Replacements(s0, s) || (Cell(s0, p) && Within(s0, r0, p, t)))
  }

  lemma MoreMemosWithin(s0: Store, r0: seq<nat>, s: Store, s': Store, part: Ref, t: Ref)
    requires Ranked(s0, r0) && Cell(s0, t) && |s0| <= |s| && |s0| <= |s'| && Cell(s0, part)
    requires MoreMemos(s0, r0, s, s', part) && Within(s0, r0, part, t)
    ensures MoreMemos(s0, r0, s, s', t)
  {
    forall p | p in Replacements(s0, s') ensures p in Replacements(s0, s) || (Cell(s0, p) && Within(s0, r0, p, t)) {
      if p !in Replacements(s0, s) { WithinTrans(s0, r0, p, part, t); }
    }
  }

  lemma ArgumentWithin(s: Store, rank: seq<nat>, t: Ref, part: Ref)
    requires Ranked(s, rank) && Cell(s, t)
    requires part == s[Pruned(s, rank, t)].first || part == s[Pruned(s, rank, t)].second
    ensures part != NULL ==> Cell(s, part) && Within(s, rank, part, t)
  {
    var p := Pruned(s, rank, t);
    WithinPruned(s, rank, t);
    if part != NULL {
      assert WellFormedCell(s[p], |s|) && Within(s, rank, part, p);
      WithinTrans(s, rank, part, p, t);
    }
  }

  /** Copying a part is a step of copying the whole. */
  lemma StepPart(s0: Store, r0: seq<nat>, plan: Plan, s: Store, rank: seq<nat>, s': Store, rank': seq<nat>, t: Ref,
                 part: Ref, g: Ref)
    requires Ranked(s0, r0) && Cell(s0, t) && Cell(s0, part) && Within(s0, r0, part, t)
    requires CopyStep(s0, r0, plan, s, rank, s', rank', part, g)
    ensures |s0| <= |s| && |s0| <= |s'| && MoreMemos(s0, r0, s, s', t)
    ensures Appended(Erased(s), rank, Erased(s'), rank') && CopyingTypes(s0, r0, plan, s', rank')
    ensures CopyingTypes(s0, r0, plan, s, rank)
    ensures Cell(s', part) && Copied(Erased(s'), rank', plan.kind, Replacements(s0, s'), part, g) && Cell(s', g)
  {
    CopiesAreCells(Erased(s'), rank', plan.kind, Replacements(s0, s'), part, g);
    hide Within, Copied, Appended, Replacements, Erased, Ranked;
    MoreMemosWithin(s0, r0, s, s', part, t);
  }

  lemma CopiesAreCells(s: Store, rank: seq<nat>, kind: Kind, m: map<Ref, Ref>, t: Ref, g: Ref)
    requires Ranked(s, rank) && Cell(s, t) && Copied(s, rank, kind, m, t, g)
    ensures Cell(s, g)
  {
  }

  lemma PartLater(s0: Store, r0: seq<nat>, plan: Plan, s1: Store, rank1: seq<nat>, s2: Store, rank2: seq<nat>,
                  t: Ref, part: Ref, g: Ref)
    requires CopyingTypes(s0, r0, plan, s1, rank1) && CopyingTypes(s0, r0, plan, s2, rank2) && Cell(s0, t)
    requires Appended(Erased(s1), rank1, Erased(s2), rank2) && MoreMemos(s0, r0, s1, s2, t)
    requires Cell(s1, part) && Copied(Erased(s1), rank1, plan.kind, Replacements(s0, s1), part, g)
    ensures Cell(s2, part) && Copied(Erased(s2), rank2, plan.kind, Replacements(s0, s2), part, g)
  {
    CopiedMore(Erased(s1), rank1, Replacements(s0, s1), Erased(s2), rank2, Replacements(s0, s2), plan.kind, part, g);
  }

  lemma MoreMemosTrans(s0: Store, r0: seq<nat>, s: Store, s1: Store, s2: Store, t: Ref)
    requires Ranked(s0, r0) && Cell(s0, t) && |s0| <= |s| && |s0| <= |s1| && |s0| <= |s2|
    requires MoreMemos(s0, r0, s, s1, t) && MoreMemos(s0, r0, s1, s2, t)
    ensures MoreMemos(s0, r0, s, s2, t)
  {
  }

  /** Both arguments copied, one after the other. */
  lemma StepParts(s0: Store, r0: seq<nat>, plan: Plan, s: Store, rank: seq<nat>, s1: Store, rank1: seq<nat>,
                  s2: Store, rank2: seq<nat>, t: Ref, x: Ref, y: Ref, a: Ref, b: Ref)
    requires Ranked(s0, r0) && Cell(s0, t) && Cell(s0, x) && Within(s0, r0, x, t) && Cell(s0, y) && Within(s0, r0, y, t)
    requires CopyStep(s0, r0, plan, s, rank, s1, rank1, x, a) && CopyStep(s0, r0, plan, s1, rank1, s2, rank2, y, b)
    ensures |s0| <= |s| && |s0| <= |s2| && MoreMemos(s0, r0, s, s2, t) && CopyingTypes(s0, r0, plan, s2, rank2)
    ensures CopyingTypes(s0, r0, plan, s, rank) && Appended(Erased(s), rank, Erased(s2), rank2)
    ensures Cell(s2, x) && Copied(Erased(s2), rank2, plan.kind, Replacements(s0, s2), x, a) && Cell(s2, a)
    ensures Cell(s2, y) && Copied(Erased(s2), rank2, plan.kind, Replacements(s0, s2), y, b) && Cell(s2, b)
  {
    StepPart(s0, r0, plan, s, rank, s1, rank1, t, x, a);
    StepPart(s0, r0, plan, s1, rank1, s2, rank2, t, y, b);
    PartLater(s0, r0, plan, s1, rank1, s2, rank2, t, x, a);
    hide Within, Copied, MoreMemos, Erased;
    MoreMemosTrans(s0, r0, s, s1, s2, t);
    AppendedTrans(Erased(s), rank, Erased(s1), rank1, Erased(s2), rank2);
  }

  /** Unchanged arguments: the type itself is its copy. */
  lemma StepUnchanged(s0: Store, r0: seq<nat>, plan: Plan, s: Store, rank: seq<nat>, s': Store, rank': seq<nat>, t: Ref)
    requires CopyingTypes(s0, r0, plan, s, rank) && CopyingTypes(s0, r0, plan, s', rank') && Cell(s0, t)
    requires Appended(Erased(s), rank, Erased(s'), rank') && MoreMemos(s0, r0, s, s', t)
    requires var p := s0[Pruned(s0, r0, t)];
             && p.kind in {Func, TupleKind, FinalKind}
             && Cell(s', p.first) && Copied(Erased(s'), rank', plan.kind, Replacements(s0, s'), p.first, p.first)
             && (p.kind != FinalKind ==>
                   Cell(s', p.second) &&
                   Copied(Erased(s'), rank', plan.kind, Replacements(s0, s'), p.second, p.second))
    ensures CopyStep(s0, r0, plan, s, rank, s', rank', t, Pruned(s0, r0, t))
  {
    PrunedThroughout(s0, r0, plan, s', rank', t);
    var p := Pruned(s0, r0, t);
    assert Erased(s')[p] == s0[p];
    hide Ranked, Replacements, Within, Appended, CopyingTypes;
    assert Copied(Erased(s'), rank', plan.kind, Replacements(s0, s'), t, p);
  }

  /** Otherwise a new type is made of them. */
  lemma StepNew(s0: Store, r0: seq<nat>, plan: Plan, s: Store, rank: seq<nat>, s': Store, rank': seq<nat>, t: Ref,
                c: TypeExp, n: nat)
    requires CopyingTypes(s0, r0, plan, s, rank) && CopyingTypes(s0, r0, plan, s', rank') && Cell(s0, t)
    requires Appended(Erased(s), rank, Erased(s'), rank') && MoreMemos(s0, r0, s, s', t)
    requires WellFormedCell(c, |s'|) && Below(rank', c.first, n) && Below(rank', c.second, n)
    requires var p := s0[Pruned(s0, r0, t)];
             && c.kind == p.kind && p.kind in {Func, TupleKind, FinalKind}
             && Cell(s', p.first) && Copied(Erased(s'), rank', plan.kind, Replacements(s0, s'), p.first, c.first)
             && (p.kind != FinalKind ==>
                   Cell(s', p.second) &&
                   Copied(Erased(s'), rank', plan.kind, Replacements(s0, s'), p.second, c.second))
    ensures CopyStep(s0, r0, plan, s, rank, s' + [c], rank' + [n], t, |s'|)
  {
    var s2, rank2 := s' + [c], rank' + [n];
    AddCopy(s0, r0, plan, s', rank', c, n);
    PrunedThroughout(s0, r0, plan, s2, rank2, t);
    var p := Pruned(s0, r0, t);
    assert Erased(s2)[p] == s0[p] && Erased(s2)[|s'|] == c && |s2| == |s'| + 1;
    var m := Replacements(s0, s');
    CopiedMore(Erased(s'), rank', m, Erased(s2), rank2, m, plan.kind, s0[p].first, c.first);
    if c.kind != FinalKind {
      CopiedMore(Erased(s'), rank', m, Erased(s2), rank2, m, plan.kind, s0[p].second, c.second);
    }
    assert Copied(Erased(s2), rank2, plan.kind, Replacements(s0, s2), t, |s'|);
    hide Ranked, Replacements, Within, CopyingTypes, Copied, Erased, Appended;
    AppendedTrans(Erased(s), rank, Erased(s'), rank', Erased(s2), rank2);
  }

  /** What the copying functions find at the end of the bindings. */
  lemma AtPruned(s0: Store, r0: seq<nat>, plan: Plan, s: Store, rank: seq<nat>, t: Ref)
    requires CopyingTypes(s0, r0, plan, s, rank) && Cell(s0, t)
    ensures Ranked(s0, r0) && Ranked(Erased(s), rank) && Cell(s, t) && |s0| <= |s| == |rank| && |s| == |Erased(s)|
    ensures var p := Pruned(s0, r0, t);
            && p == Pruned(Erased(s), rank, t) && Cell(s0, p) && s[p].kind == s0[p].kind
            && (s0[p].kind == plan.kind ==> Leaf(s0[p]) && (s[p].second != NULL <==> s[p] != s0[p]))
            && (s0[p].kind in {Func, TupleKind, FinalKind} ==>
                  s[p] == s0[p] && s0[p].kind != plan.kind && Cell(s0, s0[p].first) && r0[s0[p].first] < r0[t] &&
                  Within(s0, r0, s0[p].first, t))
            && (s0[p].kind in {Func, TupleKind} ==>
                  Cell(s0, s0[p].second) && r0[s0[p].second] < r0[t] && Within(s0, r0, s0[p].second, t))
            && (s0[p].kind == FinalKind ==> s0[p].second == NULL)
  {
    PrunedThroughout(s0, r0, plan, s, rank, t);
    var p := Pruned(s0, r0, t);
    assert WellFormedCell(s0[p], |s0|);
    ArgumentWithin(s0, r0, t, s0[p].first);
    ArgumentWithin(s0, r0, t, s0[p].second);
    if s[p] != s0[p] { assert CopyingCell(s0, plan, s, rank, p); }
  }

  /** Both arguments have been copied: either nothing has changed, or there is a new type. */
  lemma StepBoth(s0: Store, r0: seq<nat>, plan: Plan, s: Store, rank: seq<nat>, s1: Store, rank1: seq<nat>,
                 s2: Store, rank2: seq<nat>, t: Ref, a: Ref, b: Ref, n: nat)
    requires CopyingTypes(s0, r0, plan, s, rank) && Ranked(s0, r0) && Cell(s0, t)
    requires var p := s0[Pruned(s0, r0, t)];
             && p.kind in {Func, TupleKind} && Cell(s0, p.first) && Cell(s0, p.second)
             && CopyStep(s0, r0, plan, s, rank, s1, rank1, p.first, a) &&
                CopyStep(s0, r0, plan, s1, rank1, s2, rank2, p.second, b)
    requires |s2| == |rank2| && Cell(s2, a) && Cell(s2, b) && rank2[a] < n && rank2[b] < n
    ensures var p := s0[Pruned(s0, r0, t)];
            && (a == p.first && b == p.second ==> CopyStep(s0, r0, plan, s, rank, s2, rank2, t, Pruned(s0, r0, t)))
            && CopyStep(s0, r0, plan, s, rank, s2 + [TypeExp(p.kind, a, b)], rank2 + [n], t, |s2|)
  {
    hide CopyStep, CopyingTypes, Ranked, Copied, MoreMemos, Appended, Erased, Replacements, Within, Pruned, Leaf;
    AtPruned(s0, r0, plan, s, rank, t);
    var p := s0[Pruned(s0, r0, t)];
    StepParts(s0, r0, plan, s, rank, s1, rank1, s2, rank2, t, p.first, p.second, a, b);
    StepNew(s0, r0, plan, s, rank, s2, rank2, t, TypeExp(p.kind, a, b), n);
    if a == p.first && b == p.second { StepUnchanged(s0, r0, plan, s, rank, s2, rank2, t); }
  }

  lemma StepOnly(s0: Store, r0: seq<nat>, plan: Plan, s: Store, rank: seq<nat>, s1: Store, rank1: seq<nat>, t: Ref,
                 a: Ref, n: nat)
    requires CopyingTypes(s0, r0, plan, s, rank) && Ranked(s0, r0) && Cell(s0, t)
    requires var p := s0[Pruned(s0, r0, t)];
             p.kind == FinalKind && Cell(s0, p.first) && CopyStep(s0, r0, plan, s, rank, s1, rank1, p.first, a)
    requires |s1| == |rank1| && Cell(s1, a) && rank1[a] < n
    ensures var p := s0[Pruned(s0, r0, t)];
            && (a == p.first ==> CopyStep(s0, r0, plan, s, rank, s1, rank1, t, Pruned(s0, r0, t)))
            && CopyStep(s0, r0, plan, s, rank, s1 + [TypeExp(p.kind, a, NULL)], rank1 + [n], t, |s1|)
  {
    hide CopyStep, CopyingTypes, Ranked, Copied, MoreMemos, Appended, Erased, Replacements, Within, Pruned, Leaf;
    AtPruned(s0, r0, plan, s, rank, t);
    var p := s0[Pruned(s0, r0, t)];
    StepPart(s0, r0, plan, s, rank, s1, rank1, t, p.first, a);
    StepNew(s0, r0, plan, s, rank, s1, rank1, t, TypeExp(p.kind, a, NULL), n);
    if a == p.first { StepUnchanged(s0, r0, plan, s, rank, s1, rank1, t); }
  }

  lemma StepFacts(s0: Store, r0: seq<nat>, plan: Plan, s: Store, rank: seq<nat>, s': Store, rank': seq<nat>, t: Ref,
                  g: Ref)
    requires Ranked(s0, r0) && Cell(s0, t) && CopyStep(s0, r0, plan, s, rank, s', rank', t, g)
    ensures CopyingTypes(s0, r0, plan, s', rank') && Cell(s', g) && |s'| == |rank'| && |s| <= |s'|
    ensures |s| == |rank| && forall i :: 0 <= i < |s| ==> rank'[i] == rank[i]
  {
    CopiesAreCells(Erased(s'), rank', plan.kind, Replacements(s0, s'), t, g);
  }

  // ----- The whole copy -----

  /** A copy has been made, and all memos are gone again. */
  ghost predicate CopyMade(s0: Store, r0: seq<nat>, plan: Plan, s: Store, rank: seq<nat>, t: Ref, g: Ref,
                           m: map<Ref, Ref>)
    requires Ranked(s0, r0) && Ranked(s, rank) && Cell(s0, t)
  {
    && Appended(s0, r0, s, rank) && Cell(s, g) && Cell(s, t) && Copied(s, rank, plan.kind, m, t, g)
    && (forall i :: |s0| <= i < |s| ==> Addition(s[i], plan.leaf))
    && (forall v :: v in m ==>
          && Cell(s0, v) && Leaf(s0[v]) && s0[v].kind == plan.kind && Within(s0, r0, v, t)
          && if v in plan.keep then m[v] == v else |s0| <= m[v] < |s| && s[m[v]] == plan.leaf)
    && (forall v, w :: v in m && w in m && v != w ==> m[v] != m[w])
  }

  lemma {:induction false} LeafOfPruned(s: Store, rank: seq<nat>, t: Ref, v: Ref)
    requires Ranked(s, rank) && Cell(s, t) && Cell(s, v) && Leaf(s[v]) && Within(s, rank, v, t)
    ensures Within(s, rank, v, Pruned(s, rank, t))
    decreases rank[t]
  {
    if IsBound(s[t]) {
      assert WellFormedCell(s[t], |s|);
      LeafOfPruned(s, rank, s[t].first, v);
    }
  }

  /** Some memos have been removed, among them all in type `t`. */
  ghost predicate CleanedUp(s: Store, rank: seq<nat>, s': Store, t: Ref)
    requires Ranked(Erased(s), rank) && (t == NULL || Cell(s, t))
  {
    && |s'| == |s| && Erased(s') == Erased(s)
    && (forall i :: 0 <= i < |s| ==> s'[i] == s[i] || s'[i] == Erase(s[i]))
    && (t != NULL ==> forall v :: Cell(s, v) && Leaf(s[v]) && Within(Erased(s), rank, v, t) ==> s'[v] == Erase(s[v]))
  }

  lemma NothingToCleanUp(s: Store, rank: seq<nat>)
    requires Ranked(Erased(s), rank)
    ensures CleanedUp(s, rank, s, NULL)
  {
  }

  lemma CleanUpParts(s: Store, rank: seq<nat>, t: Ref)
    requires Ranked(Erased(s), rank) && Cell(s, t)
    ensures |rank| == |s|
    ensures var p := Pruned(Erased(s), rank, t);
            s[p].kind !in {Variable, Generic} ==>
              && (s[p].first == NULL || (Cell(s, s[p].first) && rank[s[p].first] < rank[t]))
              && (s[p].second == NULL || (Cell(s, s[p].second) && rank[s[p].second] < rank[t]))
  {
    var p := Pruned(Erased(s), rank, t);
    assert WellFormedCell(Erased(s)[p], |s|);
    assert Erased(s)[p] == Erase(s[p]);
  }

  /** Cleaning up leaves other types alone, and the store as it is without memos. */
  lemma StillClean(s: Store, rank: seq<nat>, s1: Store, part: Ref, p: Ref)
    requires Ranked(Erased(s), rank) && (part == NULL || Cell(s, part)) && CleanedUp(s, rank, s1, part)
    requires Cell(s, p) && s[p].kind !in {Variable, Generic}
    ensures |s1| == |s| && Erased(s1) == Erased(s) && s1[p] == s[p]
  {
  }

  lemma CleanUpLeaf(s: Store, rank: seq<nat>, t: Ref, p: Ref)
    requires Ranked(Erased(s), rank) && Cell(s, t) && p == Pruned(Erased(s), rank, t) &&
             s[p].kind in {Variable, Generic}
    ensures CleanedUp(s, rank, s[p := s[p].(second := NULL)], t)
  {
    var s' := s[p := s[p].(second := NULL)];
    assert Erased(s') == Erased(s);
    forall v | Cell(s, v) && Leaf(s[v]) && Within(Erased(s), rank, v, t) ensures s'[v] == Erase(s[v]) {
      LeafOfPruned(Erased(s), rank, t, v);
      NothingInside(Erased(s), rank, p, v);
    }
  }

  lemma NothingInside(s: Store, rank: seq<nat>, p: Ref, v: Ref)
    requires Ranked(s, rank) && Cell(s, p) && Cell(s, v) && s[p].first == NULL && s[p].second == NULL &&
             Within(s, rank, v, p)
    ensures v == p
  {
  }

  lemma CleanUpArguments(s: Store, rank: seq<nat>, s1: Store, s2: Store, t: Ref, p: Ref)
    requires Ranked(Erased(s), rank) && Cell(s, t) && p == Pruned(Erased(s), rank, t) &&
             s[p].kind !in {Variable, Generic}
    requires (s[p].first == NULL || Cell(s, s[p].first)) && (s[p].second == NULL || Cell(s, s[p].second))
    requires CleanedUp(s, rank, s1, s[p].first) && CleanedUp(s1, rank, s2, s[p].second)
    ensures CleanedUp(s, rank, s2, t)
  {
    var e := Erased(s);
    forall v | Cell(s, v) && Leaf(s[v]) && Within(e, rank, v, t) ensures s2[v] == Erase(s[v]) {
      LeafOfPruned(e, rank, t, v);
      assert e[p] == s[p];
      if v == p {
        assert Erase(s[p]) == s[p];
      } else if s[p].first == NULL || !Within(e, rank, v, s[p].first) {
        assert Within(e, rank, v, s[p].second);
        assert Leaf(s1[v]);
      }
    }
  }

  lemma CleanedUpAll(s0: Store, r0: seq<nat>, plan: Plan, s: Store, rank: seq<nat>, t: Ref, g: Ref, s': Store)
    requires Ranked(s0, r0) && Cell(s0, t) && CopyStep(s0, r0, plan, s0, r0, s, rank, t, g) && CleanedUp(s, rank, s', t)
    ensures s' == Erased(s)
  {
    AppendedSame(s0, r0, Erased(s), rank, t);
    NothingToErase(s0);
    forall i | 0 <= i < |s| ensures s'[i] == Erase(s[i]) {
      assert CopyingCell(s0, plan, s, rank, i);
      if i < |s0| && s[i] != s0[i] {
        assert i in Replacements(s0, s) && i !in Replacements(s0, s0);
        assert Within(s0, r0, i, t) && Leaf(s[i]);
      } else if i < |s0| {
        assert s0[i] == Erased(s0)[i];
      }
    }
  }

  lemma CopyIsMade(s0: Store, r0: seq<nat>, plan: Plan, s: Store, rank: seq<nat>, t: Ref, g: Ref)
    requires Ranked(s0, r0) && Cell(s0, t) && CopyStep(s0, r0, plan, s0, r0, s, rank, t, g)
    ensures |s0| <= |s| && Ranked(Erased(s), rank)
    ensures CopyMade(s0, r0, plan, Erased(s), rank, t, g, Replacements(s0, s))
  {
    var m := Replacements(s0, s);
    CopiesAreCells(Erased(s), rank, plan.kind, m, t, g);
    forall v | v in m
      ensures Cell(s0, v) && Leaf(s0[v]) && s0[v].kind == plan.kind && Within(s0, r0, v, t)
      ensures if v in plan.keep then m[v] == v else |s0| <= m[v] < |s| && Erased(s)[m[v]] == plan.leaf
    {
      assert CopyingCell(s0, plan, s, rank, v);
      assert v !in Replacements(s0, s0);
    }
    forall i | |s0| <= i < |s| ensures Addition(Erased(s)[i], plan.leaf) {
      assert CopyingCell(s0, plan, s, rank, i);
    }
  }
}
