/** The memos that copying leaves in the cells while it runs. */
module Memos {
  import opened Wrappers
  import opened Syntax
  import opened TypeCells
  import opened Typing
  import opened Schemes
  import opened Copying

  function Erase(c: TypeExp): TypeExp {
    if c.kind == Variable || c.kind == Generic then c.(second := NULL) else c
  }

  /** The store without the memos. */
  function Erased(s: Store): (e: Store)
    ensures |e| == |s| && forall i :: 0 <= i < |s| ==> e[i] == Erase(s[i])
  {
    seq(|s|, i requires 0 <= i < |s| => Erase(s[i]))
  }

  lemma NothingToErase(s: Store)
    requires WellFormed(s)
    ensures Erased(s) == s
  {
    forall i | 0 <= i < |s| ensures Erase(s[i]) == s[i] { assert WellFormedCell(s[i], |s|); }
  }

  /** A memo of a variable is the variable itself or a generic variable. */
  ghost predicate Memoised(s: Store, rank: seq<nat>) {
    && Ranked(Erased(s), rank)
    && forall i :: 0 <= i < |s| && s[i] != Erase(s[i]) && s[i].second != i ==>
         Cell(s, s[i].second) && s[s[i].second] == TypeExp(Generic, NULL, NULL) && rank[s[i].second] < rank[i]
  }

  lemma CleanStore(s: Store, rank: seq<nat>)
    requires Ranked(s, rank)
    ensures Erased(s) == s && Memoised(s, rank) && |rank| == |s| && WellFormed(s)
  {
    NothingToErase(s);
  }

  // ----- Searching a type that has memos -----

  datatype Answer = Yes | No | Never

  /** The search for cell `a` in type `b` as written follows all pointers, also memos. It never
      comes to an end once it gets to a variable that is its own memo. As meant it follows no memo. */
  ghost function Search(v: Version, s: Store, rank: seq<nat>, a: Ref, b: Ref): Answer
    requires Memoised(s, rank) && Cell(s, a) && (b == NULL || Cell(s, b))
    decreases if b == NULL then 0 else rank[b] + 1
  {
    if a == b then Yes
    else if b == NULL then No
    else
      assert Erased(s)[b] == Erase(s[b]);
      var first := Search(v, s, rank, a, s[b].first);
      if first != No then first
      else if v.AsMeant? && s[b].kind in {Variable, Generic} then No
      else if s[b].second == b then Never
      else Search(v, s, rank, a, s[b].second)
  }

  ghost function SearchAll(v: Version, s: Store, rank: seq<nat>, a: Ref, ng: seq<Ref>): Answer
    requires Memoised(s, rank) && Cell(s, a) && forall k :: 0 <= k < |ng| ==> Cell(s, ng[k])
  {
    if ng == [] then No
    else if Search(v, s, rank, a, ng[0]) != No then Search(v, s, rank, a, ng[0])
    else SearchAll(v, s, rank, a, ng[1..])
  }

  /** If the search ends its answer is right. */
  lemma {:induction false} SearchSound(v: Version, s: Store, rank: seq<nat>, a: Ref, b: Ref)
    requires Memoised(s, rank) && Cell(s, a) && s[a].kind == Variable && Cell(s, b)
    ensures Search(v, s, rank, a, b) == Yes ==> Within(Erased(s), rank, a, b)
    ensures Search(v, s, rank, a, b) == No ==> !Within(Erased(s), rank, a, b)
    decreases rank[b]
  {
    if a != b {
      var e := Erased(s);
      assert e[b] == Erase(s[b]);
      assert Within(e, rank, a, b) <==> Within(e, rank, a, e[b].first) || Within(e, rank, a, e[b].second);
      assert !Within(e, rank, a, NULL) && Search(v, s, rank, a, NULL) == No;
      if s[b].first != NULL { SearchSound(v, s, rank, a, s[b].first); }
      if s[b].second != NULL && s[b].second != b {
        if Erase(s[b]) == s[b] { SearchSound(v, s, rank, a, s[b].second); }
        else { MemoSearched(v, s, rank, a, s[b].second); }
      }
    }
  }

  lemma MemoSearched(v: Version, s: Store, rank: seq<nat>, a: Ref, g: Ref)
    requires Memoised(s, rank) && Cell(s, a) && s[a].kind == Variable && Cell(s, g) &&
             s[g] == TypeExp(Generic, NULL, NULL)
    ensures Search(v, s, rank, a, g) == No
  {
  }

  /** Without memos it ends. */
  lemma {:induction false} SearchEnds(v: Version, s: Store, rank: seq<nat>, a: Ref, b: Ref)
    requires Memoised(s, rank) && Ranked(s, rank) && Cell(s, a) && Cell(s, b)
    ensures Search(v, s, rank, a, b) == if Within(s, rank, a, b) then Yes else No
    decreases rank[b]
  {
    if a != b {
      if s[b].first != NULL { SearchEnds(v, s, rank, a, s[b].first); }
      if s[b].second != NULL { SearchEnds(v, s, rank, a, s[b].second); }
    }
  }

  lemma {:induction false} SearchAllSound(v: Version, s: Store, rank: seq<nat>, a: Ref, ng: seq<Ref>)
    requires Memoised(s, rank) && Cell(s, a) && s[a].kind == Variable && forall k :: 0 <= k < |ng| ==> Cell(s, ng[k])
    ensures SearchAll(v, s, rank, a, ng) == Yes ==> NonGeneric(Erased(s), rank, a, ng)
    ensures SearchAll(v, s, rank, a, ng) == No ==> !NonGeneric(Erased(s), rank, a, ng)
  {
    if ng != [] {
      SearchSound(v, s, rank, a, ng[0]);
      SearchAllSound(v, s, rank, a, ng[1..]);
      assert NonGeneric(Erased(s), rank, a, ng) <==>
        Within(Erased(s), rank, a, ng[0]) || NonGeneric(Erased(s), rank, a, ng[1..]) by {
        forall k | 0 < k < |ng| ensures ng[k] == ng[1..][k - 1] {}
      }
    }
  }

  /** Two parameters are enough to go wrong: once the inner one is marked as non-generic, looking
      for the outer one never ends, exactly because they are different. */
  lemma MarkedParameter(s: Store, rank: seq<nat>, a: Ref, b: Ref, ng: seq<Ref>)
    requires Memoised(s, rank) && Cell(s, a) && Cell(s, b) && IsUnbound(s[b]) && s[b].second == b
    requires forall k :: 0 <= k < |ng| ==> Cell(s, ng[k])
    ensures SearchAll(AsWritten, s, rank, a, [b] + ng) == Never <==> a != b
  {
    assert Search(AsWritten, s, rank, a, b) == if a == b then Yes else Never;
  }

  /** As meant the search always ends. */
  lemma {:induction false} MeantEnds(s: Store, rank: seq<nat>, a: Ref, b: Ref)
    requires Memoised(s, rank) && Cell(s, a) && Cell(s, b)
    ensures Search(AsMeant, s, rank, a, b) != Never
    decreases rank[b]
  {
    assert Erased(s)[b] == Erase(s[b]);
    assert Search(AsMeant, s, rank, a, NULL) != Never;
    if s[b].first != NULL { MeantEnds(s, rank, a, s[b].first); }
    if s[b].kind !in {Variable, Generic} && s[b].second != NULL { MeantEnds(s, rank, a, s[b].second); }
  }

  lemma {:induction false} MeantEndsAll(s: Store, rank: seq<nat>, a: Ref, ng: seq<Ref>)
    requires Memoised(s, rank) && Cell(s, a) && forall k :: 0 <= k < |ng| ==> Cell(s, ng[k])
    ensures SearchAll(AsMeant, s, rank, a, ng) != Never
  {
    if ng != [] {
      MeantEnds(s, rank, a, ng[0]);
      MeantEndsAll(s, rank, a, ng[1..]);
    }
  }

  // ----- A copy being made -----

  ghost predicate InStore(s: Store, ng: seq<Ref>) {
    forall k :: 0 <= k < |ng| ==> Cell(s, ng[k])
  }

  const GENERIC := TypeExp(Generic, NULL, NULL)
  const VARIABLE := TypeExp(Variable, NULL, NULL)

  /** What kind of leaf a copy replaces, by what, and which of them it keeps. */
  datatype Plan = Plan(kind: Kind, leaf: TypeExp, keep: iset<Ref>)

  ghost predicate Proper(plan: Plan) {
    (plan.kind == Variable && plan.leaf == GENERIC) ||
      (plan.kind == Generic && plan.leaf == VARIABLE && plan.keep == iset{})
  }

  /** Generalisation replaces the variables that are not part of enclosing parameters. */
  ghost function Generalisation(s: Store, rank: seq<nat>, ng: seq<Ref>): (plan: Plan)
    requires Ranked(s, rank) && InStore(s, ng)
    ensures Proper(plan)
  {
    Plan(Variable, GENERIC, iset v: Ref | Cell(s, v) && NonGeneric(s, rank, v, ng))
  }

  const INSTANTIATION := Plan(Generic, VARIABLE, iset{})

  /** The replacements made so far. */
  ghost function Replacements(s0: Store, s: Store): map<Ref, Ref>
    requires |s0| <= |s|
  {
    map i: Ref | 0 <= i < |s0| && s[i] != s0[i] :: s[i].second
  }

  predicate Addition(c: TypeExp, leaf: TypeExp) {
    c == leaf || c.kind in {Func, TupleKind, FinalKind}
  }

  /** Between the start of a copy and now, new leaves and copies of types have been added; leaves
      that have been met have a memo: their replacement, or themselves. */
  ghost predicate CopyingCell(s0: Store, plan: Plan, s: Store, rank: seq<nat>, i: Ref)
    requires |s| == |rank| && |s0| <= |s| && Cell(s, i)
  {
    if i >= |s0| then (
      s[i] == Erase(s[i]) && Addition(s[i], plan.leaf)
    ) else (
      s[i] == s0[i] || (
        && s[i] == s0[i].(second := s[i].second) && Leaf(s0[i]) && s0[i].kind == plan.kind
        && GoodMemo(s0, plan, s, rank, i))
    )
  }

  ghost predicate GoodMemo(s0: Store, plan: Plan, s: Store, rank: seq<nat>, i: Ref)
    requires |s| == |rank| && Cell(s, i)
  {
    var r := s[i].second;
    if i in plan.keep then r == i
    else |s0| <= r < |s| && s[r] == plan.leaf && rank[r] <= LeafRank(plan.leaf)
  }

  /** The rank of a new leaf. */
  function LeafRank(leaf: TypeExp): nat { if leaf == GENERIC then 0 else 1 }

  ghost predicate Injective(s0: Store, s: Store)
    requires |s0| <= |s|
  {
    forall i, j :: 0 <= i < j < |s0| && s[i] != s0[i] && s[j] != s0[j] ==> s[i].second != s[j].second
  }

  ghost predicate CopyingTypes(s0: Store, r0: seq<nat>, plan: Plan, s: Store, rank: seq<nat>) {
    && Ranked(s0, r0) && Proper(plan) && |s0| <= |s| == |rank| && Ranked(Erased(s), rank)
    && Appended(s0, r0, Erased(s), rank)
    && (forall i :: 0 <= i < |s| ==> CopyingCell(s0, plan, s, rank, i))
    && Injective(s0, s)
  }

  lemma CopyingMemoised(s0: Store, r0: seq<nat>, plan: Plan, s: Store, rank: seq<nat>)
    requires CopyingTypes(s0, r0, plan, s, rank) && plan.leaf == GENERIC
    ensures Memoised(s, rank)
  {
    forall i | 0 <= i < |s| && s[i] != Erase(s[i]) && s[i].second != i
      ensures Cell(s, s[i].second) && s[s[i].second] == GENERIC && rank[s[i].second] < rank[i]
    {
      assert CopyingCell(s0, plan, s, rank, i);
      assert i < |s0| && s0[i] == Erase(s[i]);
    }
  }

  /** Nothing has been copied yet. */
  lemma CopyingStarts(s: Store, rank: seq<nat>, plan: Plan)
    requires Ranked(s, rank) && Proper(plan)
    ensures CopyingTypes(s, rank, plan, s, rank) && Replacements(s, s) == map[]
  {
    NothingToErase(s);
  }

  function Kept(s: Store, p: Ref): Store
    requires Cell(s, p)
  {
    s[p := s[p].(second := p)]
  }

  lemma Keep(s0: Store, r0: seq<nat>, plan: Plan, s: Store, rank: seq<nat>, p: Ref)
    requires CopyingTypes(s0, r0, plan, s, rank) && Cell(s0, p) && Leaf(s0[p]) && s0[p].kind == plan.kind &&
             s[p] == s0[p]
    requires p in plan.keep
    ensures CopyingTypes(s0, r0, plan, Kept(s, p), rank) && Erased(Kept(s, p)) == Erased(s)
    ensures Replacements(s0, Kept(s, p)) == Replacements(s0, s)[p := p]
  {
    var s' := Kept(s, p);
    assert Erased(s') == Erased(s) && WellFormedCell(s0[p], |s0|);
    hide Ranked, Appended;
    forall i | 0 <= i < |s'| ensures CopyingCell(s0, plan, s', rank, i) {
      assert CopyingCell(s0, plan, s, rank, i);
    }
    forall i | 0 <= i < |s0| && i != p && s[i] != s0[i] ensures s[i].second != p {
      assert CopyingCell(s0, plan, s, rank, i);
    }
  }

  lemma AddRanked(s: Store, rank: seq<nat>, c: TypeExp, n: nat)
    requires Ranked(s, rank) && WellFormedCell(c, |s|) && Below(rank, c.first, n) && Below(rank, c.second, n)
    requires c.kind == Variable ==> n > 0
    ensures Ranked(s + [c], rank + [n]) && Appended(s, rank, s + [c], rank + [n])
  {
    forall i | 0 <= i < |s| + 1 ensures WellFormedCell((s + [c])[i], |s| + 1) {
      if i < |s| { assert WellFormedCell(s[i], |s|); }
    }
  }

  lemma AppendedTrans(s: Store, rank: seq<nat>, s1: Store, rank1: seq<nat>, s2: Store, rank2: seq<nat>)
    requires Ranked(s, rank) && Ranked(s1, rank1) && Ranked(s2, rank2)
    requires Appended(s, rank, s1, rank1) && Appended(s1, rank1, s2, rank2)
    ensures Appended(s, rank, s2, rank2)
  {
  }

  function Replaced(s: Store, p: Ref, leaf: TypeExp): Store
    requires Cell(s, p)
  {
    s[p := s[p].(second := |s|)] + [leaf]
  }

  lemma Replace(s0: Store, r0: seq<nat>, plan: Plan, s: Store, rank: seq<nat>, p: Ref)
    requires CopyingTypes(s0, r0, plan, s, rank) && Cell(s0, p) && Leaf(s0[p]) && s0[p].kind == plan.kind &&
             s[p] == s0[p]
    requires p !in plan.keep
    ensures var s', rank' := Replaced(s, p, plan.leaf), rank + [LeafRank(plan.leaf)];
            && CopyingTypes(s0, r0, plan, s', rank') && Appended(Erased(s), rank, Erased(s'), rank')
            && Replacements(s0, s') == Replacements(s0, s)[p := |s|]
  {
    var s', rank' := Replaced(s, p, plan.leaf), rank + [LeafRank(plan.leaf)];
    assert Erased(s') == Erased(s) + [plan.leaf] && WellFormedCell(s0[p], |s0|);
    AddRanked(Erased(s), rank, plan.leaf, LeafRank(plan.leaf));
    ReplacedCells(s0, plan, s, rank, p);
    hide Ranked, Appended, CopyingCell, Injective;
    AppendedTrans(s0, r0, Erased(s), rank, Erased(s'), rank');
  }

  lemma ReplacedCells(s0: Store, plan: Plan, s: Store, rank: seq<nat>, p: Ref)
    requires |s0| <= |s| == |rank| && Cell(s0, p) && Leaf(s0[p]) && s0[p].kind == plan.kind && s[p] == s0[p] &&
             p !in plan.keep
    requires (forall i :: 0 <= i < |s| ==> CopyingCell(s0, plan, s, rank, i)) && Injective(s0, s) && Proper(plan)
    requires s0[p].second == NULL
    ensures var s', rank' := Replaced(s, p, plan.leaf), rank + [LeafRank(plan.leaf)];
            && (forall i :: 0 <= i < |s'| ==> CopyingCell(s0, plan, s', rank', i)) && Injective(s0, s')
            && Replacements(s0, s') == Replacements(s0, s)[p := |s|]
  {
    var s', rank' := Replaced(s, p, plan.leaf), rank + [LeafRank(plan.leaf)];
    forall i | 0 <= i < |s'| ensures CopyingCell(s0, plan, s', rank', i) {
      if i < |s| { assert CopyingCell(s0, plan, s, rank, i); }
    }
    forall i | 0 <= i < |s0| && s[i] != s0[i] ensures s[i].second != |s| {
      assert CopyingCell(s0, plan, s, rank, i);
    }
  }

  lemma AddCopy(s0: Store, r0: seq<nat>, plan: Plan, s: Store, rank: seq<nat>, c: TypeExp, n: nat)
    requires CopyingTypes(s0, r0, plan, s, rank) && c.kind in {Func, TupleKind, FinalKind}
    requires WellFormedCell(c, |s|) && Below(rank, c.first, n) && Below(rank, c.second, n)
    ensures CopyingTypes(s0, r0, plan, s + [c], rank + [n]) && Appended(Erased(s), rank, Erased(s + [c]), rank + [n])
    ensures Replacements(s0, s + [c]) == Replacements(s0, s)
  {
    var s', rank' := s + [c], rank + [n];
    assert Erased(s') == Erased(s) + [c];
    AddedCells(s0, plan, s, rank, c, n);
    AddRanked(Erased(s), rank, c, n);
    hide Ranked, Appended, CopyingCell, Injective;
    AppendedTrans(s0, r0, Erased(s), rank, Erased(s'), rank');
  }

  lemma AddedCells(s0: Store, plan: Plan, s: Store, rank: seq<nat>, c: TypeExp, n: nat)
    requires |s0| <= |s| == |rank| && c.kind in {Func, TupleKind, FinalKind}
    requires (forall i :: 0 <= i < |s| ==> CopyingCell(s0, plan, s, rank, i)) && Injective(s0, s)
    ensures forall i :: 0 <= i < |s| + 1 ==> CopyingCell(s0, plan, s + [c], rank + [n], i)
    ensures Injective(s0, s + [c]) && Replacements(s0, s + [c]) == Replacements(s0, s)
  {
    var s', rank' := s + [c], rank + [n];
    forall i | 0 <= i < |s'| ensures CopyingCell(s0, plan, s', rank', i) {
      if i < |s| { assert CopyingCell(s0, plan, s, rank, i); }
    }
  }
}
