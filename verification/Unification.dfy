/** What unification achieves, case by case. */
module Unification {
  import opened TypeCells

  /** Whether some types for the cells make both types the same. */
  ghost predicate Unifies(s: Store, one: Ref, two: Ref, den: seq<Type>)
    requires WellFormed(s) && Cell(s, one) && Cell(s, two)
  {
    Solves(s, den) && den[one] == den[two]
  }

  ghost predicate Unifiable(s: Store, one: Ref, two: Ref)
    requires WellFormed(s) && Cell(s, one) && Cell(s, two)
  {
    exists den :: Unifies(s, one, two, den)
  }

  /** Only unbound variables have changed, and only by being bound; so no solution is new. */
  ghost predicate Extends(s: Store, s': Store)
    requires WellFormed(s) && WellFormed(s')
  {
    && |s| == |s'|
    && (forall i :: 0 <= i < |s| && !IsUnbound(s[i]) ==> s'[i] == s[i])
    && (forall i :: 0 <= i < |s| ==> s'[i].kind == s[i].kind)
    && (forall den :: Solves(s', den) ==> Solves(s, den))
  }

  /** No unifier is lost. */
  ghost predicate KeepsUnifiers(s: Store, s': Store, one: Ref, two: Ref)
    requires WellFormed(s) && WellFormed(s') && Cell(s, one) && Cell(s, two)
  {
    forall den :: Unifies(s, one, two, den) ==> Solves(s', den)
  }

  /** Every solution is a unifier. */
  ghost predicate AllUnify(s: Store, one: Ref, two: Ref)
    requires WellFormed(s) && Cell(s, one) && Cell(s, two)
  {
    forall den :: Solves(s, den) ==> den[one] == den[two]
  }

  /** A type as they are unified while there is no error: without generic variables, and with no
      other unbound variables than `d`. */
  ghost predicate Simple(s: Store, rank: seq<nat>, r: Ref, d: iset<Ref>)
    requires Ranked(s, rank) && Cell(s, r)
  {
    Mono(s, rank, r) && Confined(s, rank, r, d)
  }

  /** What a run of the unifier from one store to another achieves. */
  ghost predicate Unified(s: Store, rank: seq<nat>, s': Store, rank': seq<nat>, one: Ref, two: Ref, d: iset<Ref>,
                          failed: bool)
    requires Ranked(s, rank) && Ranked(s', rank') && Cell(s, one) && Cell(s, two)
  {
    && Extends(s, s') && KeepsUnifiers(s, s', one, two)
    && (Simple(s, rank, one, d) && Simple(s, rank, two, d) ==>
          && (failed ==> !Unifiable(s, one, two))
          && (!failed ==> AllUnify(s', one, two))
          && Evolved(s, s', rank', d))
    && ((s' == s && rank' == rank) || |Unbound(s')| < |Unbound(s)|)
  }

  /** Without an error the solutions left are exactly the unifiers, and there are some. */
  lemma UnifiedExactly(s: Store, rank: seq<nat>, s': Store, rank': seq<nat>, one: Ref, two: Ref, d: iset<Ref>,
                       failed: bool)
    requires Ranked(s, rank) && Ranked(s', rank') && Cell(s, one) && Cell(s, two)
    requires Simple(s, rank, one, d) && Simple(s, rank, two, d)
    requires Unified(s, rank, s', rank', one, two, d, failed)
    ensures failed <==> !Unifiable(s, one, two)
    ensures !failed ==> forall den :: Solves(s', den) <==> Unifies(s, one, two, den)
  {
    if !failed {
      ResolvedSolves(s', rank', _ => TInt);
      assert Unifies(s, one, two, Resolved(s', rank', _ => TInt));
    }
  }

  lemma SameSize(s: Store, rank: seq<nat>, s': Store, rank': seq<nat>, one: Ref, two: Ref, d: iset<Ref>, failed: bool)
    requires Ranked(s, rank) && Ranked(s', rank') && Cell(s, one) && Cell(s, two) &&
             Unified(s, rank, s', rank', one, two, d, failed)
    ensures |s'| == |s|
  {
  }

  // ----- The cases -----

  lemma PrunedSolutions(s: Store, rank: seq<nat>, one: Ref, two: Ref)
    requires Ranked(s, rank) && Cell(s, one) && Cell(s, two)
    ensures forall den :: Solves(s, den) ==>
              |den| == |s| && den[Pruned(s, rank, one)] == den[one] && den[Pruned(s, rank, two)] == den[two]
  {
    forall den | Solves(s, den)
      ensures |den| == |s| && den[Pruned(s, rank, one)] == den[one] && den[Pruned(s, rank, two)] == den[two]
    {
      PrunedSame(s, rank, one, den);
      PrunedSame(s, rank, two, den);
    }
  }

  lemma PrunedSimple(s: Store, rank: seq<nat>, r: Ref, d: iset<Ref>)
    requires Ranked(s, rank) && Cell(s, r)
    ensures Simple(s, rank, r, d) ==> Simple(s, rank, Pruned(s, rank, r), d)
  {
    WithinPruned(s, rank, r);
    if Simple(s, rank, r, d) {
      MonoWithin(s, rank, Pruned(s, rank, r), r);
      ConfinedWithin(s, rank, Pruned(s, rank, r), r, d);
    }
  }

  /** It is enough to unify what the types are bound to. */
  lemma UnifiedPruned(s: Store, rank: seq<nat>, s': Store, rank': seq<nat>, one: Ref, two: Ref, d: iset<Ref>,
                      failed: bool)
    requires Ranked(s, rank) && Ranked(s', rank') && WellFormed(s) && WellFormed(s') && Cell(s, one) && Cell(s, two)
    requires Unified(s, rank, s', rank', Pruned(s, rank, one), Pruned(s, rank, two), d, failed)
    ensures Unified(s, rank, s', rank', one, two, d, failed)
  {
    PrunedSolutions(s, rank, one, two);
    PrunedSimple(s, rank, one, d);
    PrunedSimple(s, rank, two, d);
    hide Solves, Simple, Evolved, Pruned, Ranked, WellFormed, Unbound;
    var p, q := Pruned(s, rank, one), Pruned(s, rank, two);
    assert forall den :: Unifies(s, one, two, den) <==> Unifies(s, p, q, den);
  }

  lemma UnifiedSwapped(s: Store, rank: seq<nat>, s': Store, rank': seq<nat>, one: Ref, two: Ref, d: iset<Ref>,
                       failed: bool)
    requires Ranked(s, rank) && Ranked(s', rank') && WellFormed(s) && WellFormed(s') && Cell(s, one) && Cell(s, two)
    requires Unified(s, rank, s', rank', two, one, d, failed)
    ensures Unified(s, rank, s', rank', one, two, d, failed)
  {
    hide Solves, Simple, Evolved, Ranked, WellFormed, Unbound;
    assert forall den :: Unifies(s, one, two, den) <==> Unifies(s, two, one, den);
  }

  lemma UnifiedAtOnce(s: Store, rank: seq<nat>, one: Ref, two: Ref, d: iset<Ref>)
    requires Ranked(s, rank) && Cell(s, one) && Cell(s, two)
    requires one == two || s[one].kind == ErrorKind || s[two].kind == ErrorKind
    ensures Unified(s, rank, s, rank, one, two, d, false)
  {
    hide Solves;
  }

  /** A variable that is part of the other type cannot be equal to it. */
  lemma OccursFails(s: Store, rank: seq<nat>, a: Ref, b: Ref, d: iset<Ref>)
    requires Ranked(s, rank) && Cell(s, a) && Cell(s, b) && a != b && !IsBound(s[b]) && Within(s, rank, a, b)
    ensures Unified(s, rank, s, rank, a, b, d, true)
  {
    assert s[b].kind != Variable;
    forall den | Solves(s, den) ensures den[a] != den[b] {
      WithinSmaller(s, rank, a, b, den);
    }
  }

  lemma BindUnifies(s: Store, rank: seq<nat>, a: Ref, b: Ref, d: iset<Ref>)
    requires Ranked(s, rank) && WellFormed(s) && Cell(s, a) && Cell(s, b) && IsUnbound(s[a]) && !Within(s, rank, a, b)
    ensures var s', rank' := Bind(s, a, b), Lifted(s, rank, a, b);
            Ranked(s', rank') && Unified(s, rank, s', rank', a, b, d, false)
  {
    hide Ranked, WellFormed, Solves, Simple, Evolved, Lifted, Unbound, Within, Bind;
    BindRanked(s, rank, a, b);
    BindSolutions(s, rank, a, b);
    BindShape(s, a, b);
    if Simple(s, rank, a, d) && Simple(s, rank, b, d) { BindEvolves(s, rank, a, b, d); }
  }

  lemma BindShape(s: Store, a: Ref, b: Ref)
    requires Cell(s, a) && IsUnbound(s[a]) && b != NULL
    ensures var s' := Bind(s, a, b);
            && |s'| == |s| && |Unbound(s')| < |Unbound(s)|
            && (forall i :: 0 <= i < |s| && !IsUnbound(s[i]) ==> s'[i] == s[i])
            && (forall i :: 0 <= i < |s| ==> s'[i].kind == s[i].kind)
  {
    assert Unbound(Bind(s, a, b)) == Unbound(s) - {a} && a in Unbound(s);
  }

  lemma BindEvolves(s: Store, rank: seq<nat>, a: Ref, b: Ref, d: iset<Ref>)
    requires Ranked(s, rank) && Cell(s, a) && Cell(s, b) && IsUnbound(s[a]) && !Within(s, rank, a, b)
    requires Simple(s, rank, a, d) && Simple(s, rank, b, d)
    requires Ranked(Bind(s, a, b), Lifted(s, rank, a, b))
    ensures Evolved(s, Bind(s, a, b), Lifted(s, rank, a, b), d)
  {
    var s', rank' := Bind(s, a, b), Lifted(s, rank, a, b);
    assert Within(s, rank, a, a) && a in d;
    assert Simple(s', rank', b, d) by {
      BindElsewhere(s, rank, a, b, rank', b, _ => TInt);
      BindKeepsUnbound(s, a, b);
      hide Bind, Ranked, Lifted, Mono, Within;
    }
    BoundSimple(s', rank', a, d);
    hide Ranked, Simple, Mono, Confined, Lifted, Within;
  }

  lemma BindKeepsUnbound(s: Store, a: Ref, b: Ref)
    requires Cell(s, a)
    ensures forall v :: Cell(s, v) && v != a ==> Bind(s, a, b)[v] == s[v]
  {
  }

  lemma BoundSimple(s: Store, rank: seq<nat>, a: Ref, d: iset<Ref>)
    requires Ranked(s, rank) && Cell(s, a) && IsBound(s[a]) && Simple(s, rank, s[a].first, d)
    ensures Simple(s, rank, a, d)
  {
    assert WellFormedCell(s[a], |s|);
    assert Mono(s, rank, a);
    hide Ranked, WellFormed, Mono, Within;
    forall v | Cell(s, v) && IsUnbound(s[v]) && Within(s, rank, v, a) ensures v in d {
      WithinBound(s, rank, v, a);
    }
  }

  lemma WithinBound(s: Store, rank: seq<nat>, v: Ref, a: Ref)
    requires Ranked(s, rank) && Cell(s, a) && IsBound(s[a]) && Cell(s, v) && v != a && Within(s, rank, v, a)
    ensures Cell(s, s[a].first) && Within(s, rank, v, s[a].first)
  {
    assert WellFormedCell(s[a], |s|);
  }

  lemma BindSolutions(s: Store, rank: seq<nat>, a: Ref, b: Ref)
    requires Ranked(s, rank) && Cell(s, a) && Cell(s, b) && IsUnbound(s[a]) && WellFormed(Bind(s, a, b))
    ensures forall den :: Solves(s, den) ==> |den| == |s|
    ensures forall den :: Solves(Bind(s, a, b), den) <==> Solves(s, den) && den[a] == den[b]
  {
    forall den ensures Solves(Bind(s, a, b), den) <==> Solves(s, den) && den[a] == den[b] {
      BindSolves(s, rank, a, b, den);
    }
  }

  lemma KindsDiffer(s: Store, rank: seq<nat>, one: Ref, two: Ref, d: iset<Ref>)
    requires Ranked(s, rank) && Cell(s, one) && Cell(s, two) && s[one].kind != s[two].kind
    requires s[one].kind !in {Variable, ErrorKind} && s[two].kind !in {Variable, ErrorKind}
    ensures Unified(s, rank, s, rank, one, two, d, true)
  {
    forall den | Solves(s, den) && s[one].kind != Generic && s[two].kind != Generic ensures den[one] != den[two] {
      assert SolvesCell(s[one], den[one], den) && SolvesCell(s[two], den[two], den);
    }
  }

  // ----- Arguments -----

  /** Unifying one argument, if there is one. */
  ghost predicate UnifiedArgument(s: Store, rank: seq<nat>, s': Store, rank': seq<nat>, one: Ref, two: Ref,
                                  d: iset<Ref>, failed: bool)
    requires Ranked(s, rank) && Ranked(s', rank')
    requires (one == NULL <==> two == NULL) && NULL <= one < |s| && NULL <= two < |s|
  {
    if one == NULL then s' == s && rank' == rank && !failed
    else Unified(s, rank, s', rank', one, two, d, failed)
  }

  lemma SameShape(s: Store, one: Ref, two: Ref)
    requires WellFormed(s) && Cell(s, one) && Cell(s, two) && s[one].kind == s[two].kind != Variable
    ensures NULL <= s[one].first < |s| && NULL <= s[two].first < |s| && (s[one].first == NULL <==> s[two].first == NULL)
    ensures NULL <= s[one].second < |s| && NULL <= s[two].second < |s| &&
            (s[one].second == NULL <==> s[two].second == NULL)
  {
    assert WellFormedCell(s[one], |s|) && WellFormedCell(s[two], |s|);
  }

  /** Two types of the same kind are equal exactly if their arguments are. */
  lemma ArgumentsDecide(s: Store, one: Ref, two: Ref)
    requires WellFormed(s) && Cell(s, one) && Cell(s, two) && s[one].kind == s[two].kind
    requires s[one].kind !in {Variable, ErrorKind}
    ensures forall den :: Solves(s, den) ==> |den| == |s|
    ensures forall den :: Solves(s, den) && (den[one] == den[two] || s[one].kind != Generic) ==>
              (den[one] == den[two] <==>
                (s[one].first == NULL ||
                 (Cell(s, s[one].first) && Cell(s, s[two].first) && den[s[one].first] == den[s[two].first])) &&
                (s[one].second == NULL ||
                 (Cell(s, s[one].second) && Cell(s, s[two].second) && den[s[one].second] == den[s[two].second])))
  {
    SameShape(s, one, two);
    forall den | Solves(s, den) && (den[one] == den[two] || s[one].kind != Generic)
      ensures den[one] == den[two] <==>
        (s[one].first == NULL || den[s[one].first] == den[s[two].first]) &&
        (s[one].second == NULL || den[s[one].second] == den[s[two].second])
    {
      assert SolvesCell(s[one], den[one], den) && SolvesCell(s[two], den[two], den);
    }
  }

  lemma SameSolutions(s: Store)
    requires WellFormed(s)
    ensures forall den :: Solves(s, den) ==> |den| == |s|
  {
  }

  lemma ArgumentsSimple(s: Store, rank: seq<nat>, r: Ref, d: iset<Ref>)
    requires Ranked(s, rank) && Cell(s, r)
    ensures Simple(s, rank, r, d) ==>
              && s[r].kind != Generic
              && (s[r].first == NULL || (Cell(s, s[r].first) && Simple(s, rank, s[r].first, d)))
              && (s[r].second == NULL || (Cell(s, s[r].second) && Simple(s, rank, s[r].second, d)))
  {
    if Simple(s, rank, r, d) {
      if s[r].first != NULL { ConfinedWithin(s, rank, s[r].first, r, d); }
      if s[r].second != NULL { ConfinedWithin(s, rank, s[r].second, r, d); }
    }
  }

  lemma SimpleLater(s: Store, rank: seq<nat>, s1: Store, rank1: seq<nat>, r: Ref, d: iset<Ref>)
    requires Ranked(s, rank) && Ranked(s1, rank1) && Cell(s, r) && |s| <= |s1|
    requires Evolved(s, s1, rank1, d) && Simple(s, rank, r, d)
    ensures Simple(s1, rank1, r, d)
  {
    EvolvedMono(s, rank, s1, rank1, d, r);
    EvolvedConfined(s, rank, s1, rank1, d, d, r);
  }

  lemma NotEvolved(s: Store, rank: seq<nat>, d: iset<Ref>)
    requires Ranked(s, rank)
    ensures Evolved(s, s, rank, d)
  {
  }

  /** Unifying the arguments from left to right, going on after a failure, unifies the types. */
  lemma ArgumentsUnify(s: Store, rank: seq<nat>, s1: Store, rank1: seq<nat>, s2: Store, rank2: seq<nat>,
                       one: Ref, two: Ref, d: iset<Ref>, failed1: bool, failed2: bool)
    requires Ranked(s, rank) && Ranked(s1, rank1) && Ranked(s2, rank2) && Cell(s, one) && Cell(s, two)
    requires WellFormed(s) && WellFormed(s1) && WellFormed(s2)
    requires s[one].kind == s[two].kind && s[one].kind !in {Variable, ErrorKind} && |s| == |s1|
    requires NULL <= s[one].first < |s| && NULL <= s[two].first < |s| &&
             (s[one].first == NULL <==> s[two].first == NULL)
    requires NULL <= s[one].second < |s| && NULL <= s[two].second < |s| &&
             (s[one].second == NULL <==> s[two].second == NULL)
    requires UnifiedArgument(s, rank, s1, rank1, s[one].first, s[two].first, d, failed1)
    requires UnifiedArgument(s1, rank1, s2, rank2, s[one].second, s[two].second, d, failed2)
    ensures Unified(s, rank, s2, rank2, one, two, d, failed1 || failed2)
  {
    ArgumentsDecide(s, one, two);
    SameSolutions(s1);
    SameSolutions(s2);
    var x, x', y, y' := s[one].first, s[two].first, s[one].second, s[two].second;
    hide Ranked, WellFormed, Solves, Simple, Evolved, Unbound;
    forall den | Unifies(s, one, two, den)
      ensures (x != NULL ==> Unifies(s, x, x', den)) && Solves(s1, den) && (y != NULL ==> Unifies(s1, y, y', den))
    {
    }
    assert Extends(s, s2) && KeepsUnifiers(s, s2, one, two);
    if Simple(s, rank, one, d) && Simple(s, rank, two, d) {
      ArgumentsSimple(s, rank, one, d);
      ArgumentsSimple(s, rank, two, d);
      NotEvolved(s, rank, d);
      NotEvolved(s1, rank1, d);
      if y != NULL {
        SimpleLater(s, rank, s1, rank1, y, d);
        SimpleLater(s, rank, s1, rank1, y', d);
      }
      EvolvedTrans(s, s1, rank1, s2, rank2, d, d);
    }
  }

  lemma IsUnifiedArgument(s: Store, rank: seq<nat>, s': Store, rank': seq<nat>, one: Ref, two: Ref, d: iset<Ref>,
                          failed: bool)
    requires Ranked(s, rank) && Ranked(s', rank')
    requires (one == NULL <==> two == NULL) && NULL <= one < |s| && NULL <= two < |s|
    requires if one == NULL then s' == s && rank' == rank && !failed
             else Unified(s, rank, s', rank', one, two, d, failed)
    ensures UnifiedArgument(s, rank, s', rank', one, two, d, failed)
  {
  }

  lemma PartsBelow(s: Store, rank: seq<nat>, r: Ref)
    requires Ranked(s, rank) && Cell(s, r)
    ensures |rank| == |s|
    ensures s[r].first != NULL ==> Cell(s, s[r].first) && rank[s[r].first] < rank[r]
    ensures s[r].second != NULL ==> Cell(s, s[r].second) && rank[s[r].second] < rank[r]
  {
  }

  /** Unifying the first arguments leaves the types themselves as they are, and the termination
      measure of the second call smaller. */
  lemma FirstUnified(s: Store, rank: seq<nat>, s1: Store, rank1: seq<nat>, one: Ref, two: Ref, d: iset<Ref>,
                     failed: bool)
    requires Ranked(s, rank) && Ranked(s1, rank1) && Cell(s, one) && Cell(s, two) && !IsUnbound(s[one]) &&
             !IsUnbound(s[two])
    requires NULL <= s[one].first < |s| && NULL <= s[two].first < |s| &&
             (s[one].first == NULL <==> s[two].first == NULL)
    requires if s[one].first == NULL then s1 == s && rank1 == rank && !failed
             else Unified(s, rank, s1, rank1, s[one].first, s[two].first, d, failed)
    ensures UnifiedArgument(s, rank, s1, rank1, s[one].first, s[two].first, d, failed)
    ensures |s1| == |s| && s1[one] == s[one] && s1[two] == s[two]
    ensures (s1 == s && rank1 == rank) || |Unbound(s1)| < |Unbound(s)|
  {
  }
}
