/** When generalising a type comes to an end. A variable that is kept becomes its own memo, and a
    later search through the types of enclosing parameters that meets it goes round for ever. */
module Halting {
  import opened Wrappers
  import opened TypeCells
  import opened Schemes
  import opened Copying
  import opened Memos
  import opened CopySteps
  import opened RecursiveDefinitions

  /** The unbound variables of a type, in the order in which they are met. */
  ghost function Variables(s: Store, rank: seq<nat>, r: Ref): seq<Ref>
    requires Ranked(s, rank) && (r == NULL || Cell(s, r))
    decreases if r == NULL then 0 else rank[r] + 1
  {
    if r == NULL then []
    else if IsUnbound(s[r]) then [r]
    else Variables(s, rank, s[r].first) + Variables(s, rank, s[r].second)
  }

  ghost function AllVariables(s: Store, rank: seq<nat>, ng: seq<Ref>): seq<Ref>
    requires Ranked(s, rank) && InStore(s, ng)
  {
    if ng == [] then [] else Variables(s, rank, ng[0]) + AllVariables(s, rank, ng[1..])
  }

  /** Wherever a variable of the enclosing parameters comes before another one in the type, the
      other one comes before it in the parameters. */
  predicate InOrder(done: seq<Ref>, vs: seq<Ref>, order: seq<Ref>) {
    var all := done + vs;
    forall i, k :: |done| <= i < |all| && 0 <= k < |order| && order[k] in all[..i] && all[i] !in all[..i] ==>
        all[i] in order[..k]
  }

  lemma {:induction false} VariablesOf(s: Store, rank: seq<nat>, r: Ref)
    requires Ranked(s, rank) && Cell(s, r)
    ensures forall v :: v in Variables(s, rank, r) <==> Cell(s, v) && IsUnbound(s[v]) && Within(s, rank, v, r)
    decreases rank[r]
  {
    if s[r].first != NULL { VariablesOf(s, rank, s[r].first); }
    if s[r].second != NULL { VariablesOf(s, rank, s[r].second); }
    forall v | Cell(s, v) ensures Within(s, rank, v, r) <==>
      v == r || (s[r].first != NULL && Within(s, rank, v, s[r].first)) ||
        (s[r].second != NULL && Within(s, rank, v, s[r].second))
    {
      WithinParts(s, rank, v, r);
    }
  }

  lemma {:induction false} VariablesPruned(s: Store, rank: seq<nat>, r: Ref)
    requires Ranked(s, rank) && Cell(s, r)
    ensures Variables(s, rank, Pruned(s, rank, r)) == Variables(s, rank, r)
    decreases rank[r]
  {
    if IsBound(s[r]) {
      assert WellFormedCell(s[r], |s|);
      VariablesPruned(s, rank, s[r].first);
    }
  }

  // ----- One search -----

  /** Looking for `a` among variables of which those in `seen` have become their own memos. */
  function Scan(a: Ref, seen: set<Ref>, vs: seq<Ref>): Answer {
    if vs == [] then No
    else if vs[0] == a then Yes
    else if vs[0] in seen then Never
    else Scan(a, seen, vs[1..])
  }

  lemma {:induction false} ScanAppend(a: Ref, seen: set<Ref>, x: seq<Ref>, y: seq<Ref>)
    ensures Scan(a, seen, x + y) == if Scan(a, seen, x) != No then Scan(a, seen, x) else Scan(a, seen, y)
  {
    if x == [] {
      assert x + y == y;
    } else {
      assert (x + y)[1..] == x[1..] + y;
      ScanAppend(a, seen, x[1..], y);
    }
  }

  lemma {:induction false} ScanEnds(a: Ref, seen: set<Ref>, vs: seq<Ref>)
    requires a !in seen
    ensures Scan(a, seen, vs) != Never <==> forall k :: 0 <= k < |vs| && vs[k] in seen ==> a in vs[..k]
  {
    if vs != [] {
      ScanEnds(a, seen, vs[1..]);
      forall k | 0 < k < |vs| ensures vs[k] == vs[1..][k - 1] &&
        (a in vs[..k] <==> a == vs[0] || a in vs[1..][..k - 1]) {
        assert vs[..k] == [vs[0]] + vs[1..][..k - 1];
      }
      if vs[0] != a && vs[0] in seen { assert a !in vs[..0]; }
    }
  }

  /** The search through a type is such a scan of its variables. */
  lemma {:induction false} SearchScans(s0: Store, r0: seq<nat>, plan: Plan, s: Store, rank: seq<nat>, a: Ref, b: Ref)
    requires CopyingTypes(s0, r0, plan, s, rank) && plan.leaf == GENERIC && Memoised(s, rank)
    requires Cell(s0, a) && IsUnbound(s0[a]) && Cell(s0, b)
    requires forall v :: Cell(s0, v) && IsUnbound(s0[v]) && Within(s0, r0, v, b) ==> v in plan.keep
    ensures Cell(s, a) && Cell(s, b) &&
            Search(AsWritten, s, rank, a, b) == Scan(a, Replacements(s0, s).Keys, Variables(s0, r0, b))
    decreases r0[b]
  {
    var seen := Replacements(s0, s).Keys;
    assert CopyingCell(s0, plan, s, rank, b) && WellFormedCell(s0[b], |s0|);
    assert Search(AsWritten, s, rank, a, NULL) == No;
    if IsUnbound(s0[b]) {
      assert Within(s0, r0, b, b);
      assert Variables(s0, r0, b) == [b];
      assert b in seen <==> s[b] != s0[b];
    } else {
      assert s[b] == s0[b] && a != b;
      var x, y := Variables(s0, r0, s0[b].first), Variables(s0, r0, s0[b].second);
      ScanAppend(a, seen, x, y);
      if s0[b].first != NULL {
        PartsWithin(s0, r0, b, s0[b].first);
        SearchScans(s0, r0, plan, s, rank, a, s0[b].first);
      }
      if s0[b].second != NULL {
        PartsWithin(s0, r0, b, s0[b].second);
        SearchScans(s0, r0, plan, s, rank, a, s0[b].second);
      }
    }
  }

  lemma {:induction false} SearchAllScans(s0: Store, r0: seq<nat>, plan: Plan, s: Store, rank: seq<nat>, a: Ref,
                                          ng: seq<Ref>)
    requires CopyingTypes(s0, r0, plan, s, rank) && plan.leaf == GENERIC && Memoised(s, rank) && InStore(s0, ng) &&
             InStore(s, ng)
    requires Cell(s0, a) && IsUnbound(s0[a]) && Cell(s, a)
    requires forall v, k :: 0 <= k < |ng| && Cell(s0, v) && IsUnbound(s0[v]) && Within(s0, r0, v, ng[k]) ==>
               v in plan.keep
    ensures SearchAll(AsWritten, s, rank, a, ng) == Scan(a, Replacements(s0, s).Keys, AllVariables(s0, r0, ng))
  {
    if ng != [] {
      var seen := Replacements(s0, s).Keys;
      SearchScans(s0, r0, plan, s, rank, a, ng[0]);
      forall k | 0 <= k < |ng| - 1 ensures ng[1..][k] == ng[k + 1] {}
      SearchAllScans(s0, r0, plan, s, rank, a, ng[1..]);
      ScanAppend(a, seen, Variables(s0, r0, ng[0]), AllVariables(s0, r0, ng[1..]));
    }
  }

  // ----- All of them -----

  /** Whether each variable that has not been seen before is looked for successfully or in vain. */
  predicate Ends(order: seq<Ref>, seen: set<Ref>, vs: seq<Ref>)
    decreases |vs|
  {
    if vs == [] then true
    else if vs[0] in seen then Ends(order, seen, vs[1..])
    else Scan(vs[0], seen, order) != Never && Ends(order, seen + {vs[0]}, vs[1..])
  }

  function Elements(vs: seq<Ref>): set<Ref> { set v | v in vs }

  lemma {:induction false} EndsAppend(order: seq<Ref>, seen: set<Ref>, x: seq<Ref>, y: seq<Ref>)
    ensures Ends(order, seen, x + y) <==> Ends(order, seen, x) && Ends(order, seen + Elements(x), y)
    decreases |x|
  {
    if x == [] {
      assert x + y == y && seen + Elements(x) == seen;
    } else {
      assert (x + y)[1..] == x[1..] + y && Elements(x) == {x[0]} + Elements(x[1..]);
      EndsAppend(order, seen + {x[0]}, x[1..], y);
      assert seen + {x[0]} + Elements(x[1..]) == seen + Elements(x);
      if x[0] in seen { assert seen + {x[0]} == seen; }
    }
  }

  /** They are exactly if the variables are in order. */
  lemma {:induction false} EndsInOrder(order: seq<Ref>, done: seq<Ref>, vs: seq<Ref>)
    ensures Ends(order, Elements(done), vs) <==> InOrder(done, vs, order)
    decreases |vs|
  {
    if vs != [] {
      var done', all := done + [vs[0]], done + vs;
      assert done' + vs[1..] == all && all[..|done|] == done && all[|done|] == vs[0];
      assert Elements(done') == Elements(done) + {vs[0]};
      EndsInOrder(order, done', vs[1..]);
      if vs[0] in done {
        assert Elements(done') == Elements(done);
      } else {
        ScanEnds(vs[0], Elements(done), order);
      }
      assert InOrder(done, vs, order) <==>
        (vs[0] !in done ==> forall k :: 0 <= k < |order| && order[k] in done ==> vs[0] in order[..k]) &&
          InOrder(done', vs[1..], order);
    }
  }

  /** The variables of a type have memos once it has been copied. */
  lemma StepSees(s0: Store, r0: seq<nat>, plan: Plan, s: Store, rank: seq<nat>, s': Store, rank': seq<nat>, t: Ref,
                 g: Ref)
    requires Ranked(s0, r0) && Cell(s0, t) && plan.leaf == GENERIC && CopyStep(s0, r0, plan, s, rank, s', rank', t, g)
    ensures |s0| <= |s| && |s0| <= |s'|
    ensures Replacements(s0, s').Keys == Replacements(s0, s).Keys + Elements(Variables(s0, r0, t))
  {
    var m := Replacements(s0, s');
    VariablesOf(s0, r0, t);
    CopiesAreCells(Erased(s'), rank', plan.kind, m, t, g);
    MemosAreLeaves(s0, r0, plan, s', rank');
    AppendedSame(s0, r0, Erased(s'), rank', t);
    forall v | v in m.Keys && v !in Replacements(s0, s) ensures v in Variables(s0, r0, t) {
      assert CopyingCell(s0, plan, s', rank', v);
    }
    forall v | v in Variables(s0, r0, t) ensures v in m {
      CopiedLeafBack(Erased(s'), rank', plan.kind, m, t, g, v);
    }
  }

  lemma MemosAreLeaves(s0: Store, r0: seq<nat>, plan: Plan, s: Store, rank: seq<nat>)
    requires CopyingTypes(s0, r0, plan, s, rank) && plan.leaf == GENERIC
    ensures LeafMap(Erased(s), plan.kind, Replacements(s0, s)) && plan.kind == Variable
  {
    forall v | v in Replacements(s0, s)
      ensures Cell(s, v) && Leaf(Erased(s)[v]) && Erased(s)[v].kind == plan.kind
      ensures Cell(s, Replacements(s0, s)[v]) && Leaf(Erased(s)[Replacements(s0, s)[v]])
    {
      assert CopyingCell(s0, plan, s, rank, v);
    }
  }

  // ----- Copying a type -----

  /** Whether copying a type comes to an end, from what has been seen so far; as meant it always does. */
  ghost predicate CopyEnds(v: Version, s0: Store, r0: seq<nat>, ng: seq<Ref>, s: Store, t: Ref)
    requires Ranked(s0, r0) && InStore(s0, ng) && Cell(s0, t) && |s0| <= |s|
  {
    v.AsMeant? || Ends(AllVariables(s0, r0, ng), Replacements(s0, s).Keys, Variables(s0, r0, t))
  }

  /** Of a variable: if it has been seen before, or the search for it ends. */
  lemma VariableEnds(v: Version, s0: Store, r0: seq<nat>, plan: Plan, s: Store, rank: seq<nat>, ng: seq<Ref>, t: Ref)
    requires Ranked(s0, r0) && InStore(s0, ng) && plan == Generalisation(s0, r0, ng) &&
             CopyingTypes(s0, r0, plan, s, rank)
    requires Cell(s0, t) && s0[Pruned(s0, r0, t)].kind == Variable
    ensures var p := Pruned(s0, r0, t);
            && |s0| <= |s| && InStore(s, ng) && Memoised(s, rank)
            && (CopyEnds(v, s0, r0, ng, s, t) <==> s[p].second != NULL || SearchAll(v, s, rank, p, ng) != Never)
  {
    var p, seen, order := Pruned(s0, r0, t), Replacements(s0, s).Keys, AllVariables(s0, r0, ng);
    CopyingMemoised(s0, r0, plan, s, rank);
    VariablesPruned(s0, r0, t);
    MemoisedIsSeen(s0, r0, plan, s, rank, p);
    SearchAllScans(s0, r0, plan, s, rank, p, ng);
    MeantEndsAll(s, rank, p, ng);
    assert Variables(s0, r0, t) == [p];
    hide Ranked, CopyingTypes, Replacements, Search, SearchAll, Scan, Variables, AllVariables;
    OneEnds(order, seen, p);
  }

  lemma MemoisedIsSeen(s0: Store, r0: seq<nat>, plan: Plan, s: Store, rank: seq<nat>, p: Ref)
    requires CopyingTypes(s0, r0, plan, s, rank) && Cell(s0, p) && IsUnbound(s0[p])
    ensures |s0| <= |s| && (p in Replacements(s0, s).Keys <==> s[p].second != NULL)
  {
    assert CopyingCell(s0, plan, s, rank, p) && WellFormedCell(s0[p], |s0|);
  }

  lemma OneEnds(order: seq<Ref>, seen: set<Ref>, p: Ref)
    ensures Ends(order, seen, [p]) <==> p in seen || Scan(p, seen, order) != Never
  {
    assert [p][1..] == [] && Ends(order, seen, []) && Ends(order, seen + {p}, []);
  }

  /** Of a type with arguments: if copying one after the other does. */
  lemma ArgumentsEnd(v: Version, s0: Store, r0: seq<nat>, ng: seq<Ref>, s: Store, t: Ref)
    requires Ranked(s0, r0) && InStore(s0, ng) && Cell(s0, t) && |s0| <= |s| && !IsUnbound(s0[Pruned(s0, r0, t)])
    ensures var p := s0[Pruned(s0, r0, t)];
            && (p.kind !in {Func, TupleKind, FinalKind} ==> CopyEnds(v, s0, r0, ng, s, t))
            && (p.kind in {Func, TupleKind} && CopyEnds(v, s0, r0, ng, s, t) ==>
                  Cell(s0, p.first) && CopyEnds(v, s0, r0, ng, s, p.first))
            && (p.kind == FinalKind ==>
                  Cell(s0, p.first) && (CopyEnds(v, s0, r0, ng, s, t) <==> CopyEnds(v, s0, r0, ng, s, p.first)))
  {
    LeavesAreEmpty(s0, Pruned(s0, r0, t));
    assert WellFormedCell(s0[Pruned(s0, r0, t)], |s0|);
    var p := Pruned(s0, r0, t);
    VariablesPruned(s0, r0, t);
    var x, y := Variables(s0, r0, s0[p].first), Variables(s0, r0, s0[p].second);
    EndsAppend(AllVariables(s0, r0, ng), Replacements(s0, s).Keys, x, y);
  }

  lemma SecondEnds(v: Version, s0: Store, r0: seq<nat>, plan: Plan, ng: seq<Ref>, s: Store, rank: seq<nat>,
                   s1: Store, rank1: seq<nat>, t: Ref, a: Ref)
    requires Ranked(s0, r0) && InStore(s0, ng) && plan == Generalisation(s0, r0, ng) && Cell(s0, t)
    requires s0[Pruned(s0, r0, t)].kind in {Func, TupleKind}
    requires var p := s0[Pruned(s0, r0, t)];
             Cell(s0, p.first) && Cell(s0, p.second) && CopyStep(s0, r0, plan, s, rank, s1, rank1, p.first, a)
    requires |s0| <= |s| && |s0| <= |s1|
    requires CopyEnds(v, s0, r0, ng, s, s0[Pruned(s0, r0, t)].first)
    ensures CopyEnds(v, s0, r0, ng, s, t) <==> CopyEnds(v, s0, r0, ng, s1, s0[Pruned(s0, r0, t)].second)
  {
    var p := Pruned(s0, r0, t);
    VariablesPruned(s0, r0, t);
    StepSees(s0, r0, plan, s, rank, s1, rank1, s0[p].first, a);
    hide CopyStep, Ranked, Replacements;
    var x, y := Variables(s0, r0, s0[p].first), Variables(s0, r0, s0[p].second);
    assert Variables(s0, r0, p) == x + y;
    EndsAppend(AllVariables(s0, r0, ng), Replacements(s0, s).Keys, x, y);
  }

  /** From the beginning: exactly if the variables are in the order that `InOrder` asks for. */
  lemma WholeEnds(v: Version, s: Store, rank: seq<nat>, ng: seq<Ref>, t: Ref)
    requires Ranked(s, rank) && InStore(s, ng) && Cell(s, t)
    ensures CopyEnds(v, s, rank, ng, s, t) <==>
              v.AsMeant? || InOrder([], Variables(s, rank, t), AllVariables(s, rank, ng))
    ensures ng == [] ==> CopyEnds(v, s, rank, ng, s, t)
  {
    EndsInOrder(AllVariables(s, rank, ng), [], Variables(s, rank, t));
    assert Elements([]) == Replacements(s, s).Keys;
  }
}
