/** The type checker: inference with destructive unification. */
module TypeChecker {
  import opened Wrappers
  import opened Syntax
  import opened Typing
  import opened TypeCells
  import opened Unification
  import opened Schemes
  import opened Copying
  import opened Memos
  import opened CopySteps
  import opened Inference
  import opened InferenceRules
  import opened RecursiveDefinitions
  import opened Halting
  import opened Analysis
  import opened Definitions

  class CheckContext {
    var cells: Store
    var errors: nat
    ghost var rank: seq<nat>
    /** The definitions that have been come to, in order. */
    ghost var reached: seq<Definition>
    const version: Version

    ghost predicate Valid()
      reads this
    {
      Ranked(cells, rank)
    }

    constructor (version: Version)
      ensures Valid() && errors == 0 && |cells| == 3 && reached == [] && this.version == version
    {
      this.version := version;
      cells := [TypeExp(Int, NULL, NULL), TypeExp(Bool, NULL, NULL), TypeExp(ErrorKind, NULL, NULL)];
      errors := 0;
      rank := [0, 0, 0];
      reached := [];
    }

    /** Follows the bindings of a variable to their end. */
    method PruneTypeExp(type_: Ref) returns (p: Ref)
      requires Ranked(Erased(cells), rank) && Cell(cells, type_)
      ensures p == Pruned(Erased(cells), rank, type_)
    {
      p := type_;
      while cells[p].kind == Variable && cells[p].first != NULL
        invariant Cell(cells, p) && Pruned(Erased(cells), rank, p) == Pruned(Erased(cells), rank, type_)
        decreases rank[p]
      {
        p := cells[p].first;
      }
    }

    /** Whether cell `a` is part of type `b`. As written, in a type with memos the search may never
        end; as meant it follows no memo. */
    method IsTypeContainedWithin(a: Ref, b: Ref) returns (r: Answer)
      requires Memoised(cells, rank) && Cell(cells, a) && (b == NULL || Cell(cells, b))
      ensures r == Search(version, cells, rank, a, b)
      decreases if b == NULL then 0 else rank[b] + 1
    {
      if a == b { return Yes; }
      if b == NULL { return No; }
      assert Erased(cells)[b] == Erase(cells[b]);
      r := IsTypeContainedWithin(a, cells[b].first);
      if r != No { return; }
      if version.AsMeant? && cells[b].kind in {Variable, Generic} { return No; }
      if cells[b].second == b { return Never; }
      r := IsTypeContainedWithin(a, cells[b].second);
    }

    /** Whether a variable is part of the type of an enclosing parameter. */
    method IsTypeNonGeneric(a: Ref, nonGenerics: seq<Ref>) returns (r: Answer)
      requires Memoised(cells, rank) && Cell(cells, a) && InStore(cells, nonGenerics)
      ensures r == SearchAll(version, cells, rank, a, nonGenerics)
    {
      var k := 0;
      while k < |nonGenerics|
        invariant 0 <= k <= |nonGenerics|
        invariant SearchAll(version, cells, rank, a, nonGenerics)
                  == SearchAll(version, cells, rank, a, nonGenerics[k..])
      {
        r := IsTypeContainedWithin(a, nonGenerics[k]);
        assert nonGenerics[k..][0] == nonGenerics[k] && nonGenerics[k..][1..] == nonGenerics[k + 1..];
        if r != No { return; }
        k := k + 1;
      }
      return No;
    }

    /** Removes the memos in a type. */
    method CleanupTypeVariables(type_: Ref)
      requires Ranked(Erased(cells), rank) && (type_ == NULL || Cell(cells, type_))
      modifies `cells
      ensures CleanedUp(old(cells), rank, cells, type_)
      decreases if type_ == NULL then 0 else rank[type_] + 1
    {
      hide Ranked, Within, Pruned, CleanedUp;
      if type_ == NULL {
        NothingToCleanUp(cells, rank);
        return;
      }
      ghost var s := cells;
      CleanUpParts(s, rank, type_);
      var p := PruneTypeExp(type_);
      if cells[p].kind == Variable || cells[p].kind == Generic {
        CleanUpLeaf(s, rank, type_, p);
        cells := cells[p := cells[p].(second := NULL)];
      } else {
        CleanupTypeVariables(cells[p].first);
        ghost var s1 := cells;
        StillClean(s, rank, s1, s[p].first, p);
        CleanupTypeVariables(cells[p].second);
        CleanUpArguments(s, rank, s1, cells, type_, p);
      }
    }

    /** Replaces the variables of a type by generic variables, except those that are part of the
        types of enclosing parameters. */
    method MakeGenericTypeExpImpl(type_: Ref, nonGenerics: seq<Ref>, ghost s0: Store, ghost r0: seq<nat>,
                                  ghost plan: Plan)
      returns (g: Ref, halts: bool)
      requires Ranked(s0, r0) && InStore(s0, nonGenerics) && plan == Generalisation(s0, r0, nonGenerics)
      requires CopyingTypes(s0, r0, plan, cells, rank) && Cell(s0, type_)
      modifies `cells, `rank
      ensures halts ==> CopyStep(s0, r0, plan, old(cells), old(rank), cells, rank, type_, g)
      ensures halts <==> CopyEnds(version, s0, r0, nonGenerics, old(cells), type_)
      decreases r0[type_]
    {
      hide CopyStep, CopyingTypes, Ranked, Copied, Appended, Erased, Within, Pruned, Replacements, NonGeneric, CopyEnds;
      ghost var s, r := cells, rank;
      AtPruned(s0, r0, plan, s, r, type_);
      g := PruneTypeExp(type_);
      halts := true;
      ghost var p := g;
      if s0[p].kind != Variable { ArgumentsEnd(version, s0, r0, nonGenerics, s, type_); }
      if cells[g].kind == Variable {
        g, halts := MakeGenericVariable(type_, g, nonGenerics, s0, r0, plan);
      } else if cells[g].kind == Func || cells[g].kind == TupleKind {
        var argFirst, argSecond;
        argFirst, halts := MakeGenericTypeExpImpl(cells[g].first, nonGenerics, s0, r0, plan);
        if !halts { return; }
        ghost var s1, r1 := cells, rank;
        StepFacts(s0, r0, plan, s, r, s1, r1, s0[p].first, argFirst);
        AtPruned(s0, r0, plan, s1, r1, type_);
        SecondEnds(version, s0, r0, plan, nonGenerics, s, r, s1, r1, type_, argFirst);
        argSecond, halts := MakeGenericTypeExpImpl(cells[g].second, nonGenerics, s0, r0, plan);
        if !halts { return; }
        StepFacts(s0, r0, plan, s1, r1, cells, rank, s0[p].second, argSecond);
        AtPruned(s0, r0, plan, cells, rank, type_);
        ghost var n := rank[argFirst] + rank[argSecond] + 1;
        StepBoth(s0, r0, plan, s, r, s1, r1, cells, rank, type_, argFirst, argSecond, n);
        if argFirst == cells[g].first && argSecond == cells[g].second { return; }
        rank := rank + [n];
        g, cells := |cells|, cells + [TypeExp(cells[g].kind, argFirst, argSecond)];
      } else if cells[g].kind == FinalKind {
        var argFirst;
        argFirst, halts := MakeGenericTypeExpImpl(cells[g].first, nonGenerics, s0, r0, plan);
        if !halts { return; }
        StepFacts(s0, r0, plan, s, r, cells, rank, s0[p].first, argFirst);
        AtPruned(s0, r0, plan, cells, rank, type_);
        ghost var n := rank[argFirst] + 1;
        StepOnly(s0, r0, plan, s, r, cells, rank, type_, argFirst, n);
        if argFirst == cells[g].first { return; }
        rank := rank + [n];
        g, cells := |cells|, cells + [TypeExp(cells[g].kind, argFirst, NULL)];
      } else {
        StepShare(s0, r0, plan, s, r, type_);
      }
    }

    method MakeGenericVariable(ghost type_: Ref, p: Ref, nonGenerics: seq<Ref>, ghost s0: Store, ghost r0: seq<nat>,
                               ghost plan: Plan)
      returns (g: Ref, halts: bool)
      requires Ranked(s0, r0) && InStore(s0, nonGenerics) && plan == Generalisation(s0, r0, nonGenerics)
      requires CopyingTypes(s0, r0, plan, cells, rank) && Cell(s0, type_) && p == Pruned(s0, r0, type_) &&
               s0[p].kind == Variable
      modifies `cells, `rank
      ensures halts ==> CopyStep(s0, r0, plan, old(cells), old(rank), cells, rank, type_, g)
      ensures halts <==> CopyEnds(version, s0, r0, nonGenerics, old(cells), type_)
    {
      ghost var s, r := cells, rank;
      AtPruned(s0, r0, plan, s, r, type_);
      VariableEnds(version, s0, r0, plan, s, r, nonGenerics, type_);
      AppendedNonGeneric(s0, r0, Erased(s), r, p, nonGenerics);
      assert p in plan.keep <==> NonGeneric(s0, r0, p, nonGenerics);
      assert InStore(cells, nonGenerics);
      hide *;
      if cells[p].second != NULL {
        StepMet(s0, r0, plan, s, r, type_);
        return cells[p].second, true;
      }
      var answer := IsTypeNonGeneric(p, nonGenerics);
      SearchAllSound(version, s, r, p, nonGenerics);
      match answer {
        case Never =>
          return p, false;
        case Yes =>
          StepKeep(s0, r0, plan, s, r, type_);
          cells := cells[p := cells[p].(second := p)];
          return p, true;
        case No =>
          StepReplace(s0, r0, plan, s, r, type_);
          g := |cells|;
          rank := rank + [0];
          cells := cells[p := cells[p].(second := g)] + [TypeExp(Generic, NULL, NULL)];
          return g, true;
      }
    }

    /** Replaces the generic variables of a type by new variables. */
    method MakeFreshTypeExpCopy(type_: Ref, ghost s0: Store, ghost r0: seq<nat>) returns (g: Ref)
      requires CopyingTypes(s0, r0, INSTANTIATION, cells, rank) && Ranked(s0, r0) && Cell(s0, type_)
      modifies `cells, `rank
      ensures CopyStep(s0, r0, INSTANTIATION, old(cells), old(rank), cells, rank, type_, g)
      decreases r0[type_]
    {
      hide CopyStep, CopyingTypes, Ranked, Copied, Appended, Erased, Within, Pruned, Replacements;
      ghost var s, r, plan := cells, rank, INSTANTIATION;
      AtPruned(s0, r0, plan, s, r, type_);
      g := PruneTypeExp(type_);
      ghost var p := g;
      if cells[g].kind == Generic {
        if cells[g].second != NULL {
          StepMet(s0, r0, plan, s, r, type_);
          return cells[g].second;
        }
        StepReplace(s0, r0, plan, s, r, type_);
        rank := rank + [1];
        cells := cells[g := cells[g].(second := |cells|)] + [TypeExp(Variable, NULL, NULL)];
        g := |cells| - 1;
      } else if cells[g].kind == TupleKind || cells[g].kind == Func {
        var argFirst := MakeFreshTypeExpCopy(cells[g].first, s0, r0);
        ghost var s1, r1 := cells, rank;
        StepFacts(s0, r0, plan, s, r, s1, r1, s0[p].first, argFirst);
        AtPruned(s0, r0, plan, s1, r1, type_);
        var argSecond := MakeFreshTypeExpCopy(cells[g].second, s0, r0);
        StepFacts(s0, r0, plan, s1, r1, cells, rank, s0[p].second, argSecond);
        AtPruned(s0, r0, plan, cells, rank, type_);
        ghost var n := rank[argFirst] + rank[argSecond] + 1;
        StepBoth(s0, r0, plan, s, r, s1, r1, cells, rank, type_, argFirst, argSecond, n);
        if argFirst == cells[g].first && argSecond == cells[g].second { return; }
        rank := rank + [n];
        g, cells := |cells|, cells + [TypeExp(cells[g].kind, argFirst, argSecond)];
      } else if cells[g].kind == FinalKind {
        var argFirst := MakeFreshTypeExpCopy(cells[g].first, s0, r0);
        StepFacts(s0, r0, plan, s, r, cells, rank, s0[p].first, argFirst);
        AtPruned(s0, r0, plan, cells, rank, type_);
        ghost var n := rank[argFirst] + 1;
        StepOnly(s0, r0, plan, s, r, cells, rank, type_, argFirst, n);
        if argFirst == cells[g].first { return; }
        rank := rank + [n];
        g, cells := |cells|, cells + [TypeExp(cells[g].kind, argFirst, NULL)];
      } else {
        StepShare(s0, r0, plan, s, r, type_);
      }
    }

    method IsErrorType(type_: Ref) returns (r: bool)
      requires Valid() && Cell(cells, type_)
      ensures r <==> cells[type_].kind == ErrorKind
    {
      r := type_ == ERROR || cells[type_].kind == ErrorKind;
    }

    method ReportUnificationFailure()
      modifies `errors
      ensures errors == old(errors) + 1
    {
      errors := errors + 1;
    }

    /** Binds an unbound variable, unless it is part of the other type. */
    method UnifyVariable(variable: Ref, other: Ref, ghost d: iset<Ref>)
      requires Valid() && Cell(cells, variable) && Cell(cells, other)
      requires IsUnbound(cells[variable]) && !IsBound(cells[other]) && variable != other
      modifies `cells, `rank, `errors
      ensures Valid() && errors >= old(errors)
      ensures Unified(old(cells), old(rank), cells, rank, variable, other, d, errors > old(errors))
    {
      CleanStore(cells, rank);
      SearchEnds(version, cells, rank, variable, other);
      hide Unified, WellFormed, Ranked, Memoised, Within, Lifted, Erased;
      var contained := IsTypeContainedWithin(variable, other);
      if contained == Yes {
        OccursFails(cells, rank, variable, other, d);
        ReportUnificationFailure();
      } else {
        BindUnifies(cells, rank, variable, other, d);
        rank := Lifted(cells, rank, variable, other);
        cells := cells[variable := cells[variable].(first := other)];
      }
    }

    /** Binds variables so that both types become the same, and nothing more than that; reports
        an error if that is impossible. */
    method UnifyImpl(one: Ref, two: Ref, ghost d: iset<Ref>)
      requires Valid() && Cell(cells, one) && Cell(cells, two)
      modifies `cells, `rank, `errors
      ensures Valid() && errors >= old(errors)
      ensures Unified(old(cells), old(rank), cells, rank, one, two, d, errors > old(errors))
      decreases |Unbound(cells)|, rank[one], 1
    {
      CleanStore(cells, rank);
      hide Unified, UnifiedArgument, WellFormed, Ranked, Memoised, Unbound, Pruned, Erased;
      ghost var s, r := cells, rank;
      var typeOne := PruneTypeExp(one);
      var typeTwo := PruneTypeExp(two);
      ghost var p, q := typeOne, typeTwo;
      var failed := IsErrorType(typeOne);
      if !failed { failed := IsErrorType(typeTwo); }
      if failed {
        UnifiedAtOnce(s, r, p, q, d);
        UnifiedPruned(s, r, s, r, one, two, d, false);
        return;
      }
      if cells[typeTwo].kind == Variable { typeOne, typeTwo := typeTwo, typeOne; }
      if cells[typeOne].kind == Variable {
        if typeOne == typeTwo {
          UnifiedAtOnce(s, r, p, q, d);
          UnifiedPruned(s, r, s, r, one, two, d, false);
          return;
        }
        UnifyVariable(typeOne, typeTwo, d);
        CleanStore(cells, rank);
        if typeOne != p { UnifiedSwapped(s, r, cells, rank, p, q, d, errors > old(errors)); }
        UnifiedPruned(s, r, cells, rank, one, two, d, errors > old(errors));
      } else {
        if cells[typeOne].kind != cells[typeTwo].kind {
          KindsDiffer(s, r, p, q, d);
          UnifiedPruned(s, r, s, r, one, two, d, true);
          ReportUnificationFailure();
          return;
        }
        UnifyArguments(typeOne, typeTwo, d);
        CleanStore(cells, rank);
        UnifiedPruned(s, r, cells, rank, one, two, d, errors > old(errors));
      }
    }

    /** Unifies the arguments of two types of the same kind. */
    method UnifyArguments(typeOne: Ref, typeTwo: Ref, ghost d: iset<Ref>)
      requires Valid() && Cell(cells, typeOne) && Cell(cells, typeTwo) && cells[typeOne].kind == cells[typeTwo].kind
      requires cells[typeOne].kind !in {Variable, ErrorKind}
      modifies `cells, `rank, `errors
      ensures Valid() && errors >= old(errors)
      ensures Unified(old(cells), old(rank), cells, rank, typeOne, typeTwo, d, errors > old(errors))
      decreases |Unbound(cells)|, rank[typeOne], 0
    {
      ghost var s, r := cells, rank;
      CleanStore(s, r);
      SameShape(s, typeOne, typeTwo);
      PartsBelow(s, r, typeOne);
      hide Unified, UnifiedArgument, WellFormed, Ranked, Unbound;
      if cells[typeOne].first != NULL { UnifyImpl(cells[typeOne].first, cells[typeTwo].first, d); }
      ghost var s1, r1, errors1 := cells, rank, errors;
      CleanStore(s1, r1);
      FirstUnified(s, r, s1, r1, typeOne, typeTwo, d, errors1 > old(errors));
      if cells[typeOne].second != NULL { UnifyImpl(cells[typeOne].second, cells[typeTwo].second, d); }
      CleanStore(cells, rank);
      IsUnifiedArgument(s1, r1, cells, rank, s[typeOne].second, s[typeTwo].second, d, errors > errors1);
      ArgumentsUnify(s, r, s1, r1, cells, rank, typeOne, typeTwo, d, errors1 > old(errors), errors > errors1);
    }

    /** Unifies two types. On types as they occur while there is no error, an error is reported
        exactly if they have no unifier, and otherwise the solutions left are the unifiers. */
    method Unify(one: Ref, two: Ref, ghost d: iset<Ref>)
      requires Valid() && Cell(cells, one) && Cell(cells, two)
      modifies `cells, `rank, `errors
      ensures Valid() && |cells| == |old(cells)| && errors >= old(errors)
      ensures Unified(old(cells), old(rank), cells, rank, one, two, d, errors > old(errors))
      ensures Simple(old(cells), old(rank), one, d) && Simple(old(cells), old(rank), two, d) ==>
                && (errors == old(errors) <==> Unifiable(old(cells), one, two))
                && (errors == old(errors) ==> forall den :: Solves(cells, den) <==> Unifies(old(cells), one, two, den))
    {
      hide Simple, Unified, Unifiable, Unifies, Solves;
      UnifyImpl(one, two, d);
      if Simple(old(cells), old(rank), one, d) && Simple(old(cells), old(rank), two, d) {
        UnifiedExactly(old(cells), old(rank), cells, rank, one, two, d, errors > old(errors));
      }
      SameSize(old(cells), old(rank), cells, rank, one, two, d, errors > old(errors));
    }

    // ----- Allocation -----

    method MakeTypeVar() returns (t: Ref)
      requires Valid()
      modifies `cells, `rank
      ensures Valid() && t == |old(cells)| && cells == old(cells) + [VARIABLE] && rank == old(rank) + [1]
    {
      AddRanked(cells, rank, VARIABLE, 1);
      t := |cells|;
      rank := rank + [1];
      cells := cells + [TypeExp(Variable, NULL, NULL)];
    }

    method MakeFunctionType(from: Ref, to: Ref) returns (t: Ref)
      requires Valid() && Cell(cells, from) && Cell(cells, to)
      modifies `cells, `rank
      ensures Valid() && t == |old(cells)| && cells == old(cells) + [TypeExp(Func, from, to)]
      ensures rank == old(rank) + [old(rank)[from] + old(rank)[to] + 1]
    {
      ghost var n := rank[from] + rank[to] + 1;
      AddRanked(cells, rank, TypeExp(Func, from, to), n);
      t := |cells|;
      rank := rank + [n];
      cells := cells + [TypeExp(Func, from, to)];
    }

    method MakeTupleType(first: Ref, rest: Ref) returns (t: Ref)
      requires Valid() && Cell(cells, first) && Cell(cells, rest)
      modifies `cells, `rank
      ensures Valid() && t == |old(cells)| && cells == old(cells) + [TypeExp(TupleKind, first, rest)]
      ensures rank == old(rank) + [old(rank)[first] + old(rank)[rest] + 1]
    {
      ghost var n := rank[first] + rank[rest] + 1;
      AddRanked(cells, rank, TypeExp(TupleKind, first, rest), n);
      t := |cells|;
      rank := rank + [n];
      cells := cells + [TypeExp(TupleKind, first, rest)];
    }

    method MakeTupleFinalType(first: Ref) returns (t: Ref)
      requires Valid() && Cell(cells, first)
      modifies `cells, `rank
      ensures Valid() && t == |old(cells)| && cells == old(cells) + [TypeExp(FinalKind, first, NULL)]
      ensures rank == old(rank) + [old(rank)[first] + 1]
    {
      ghost var n := rank[first] + 1;
      AddRanked(cells, rank, TypeExp(FinalKind, first, NULL), n);
      t := |cells|;
      rank := rank + [n];
      cells := cells + [TypeExp(FinalKind, first, NULL)];
    }

    // ----- Generalisation and instantiation -----

    /** Generalises a type and removes the memos again. As written it comes to an end exactly if,
        wherever a variable of the enclosing parameters comes before another variable in the type,
        the other one comes before it in the parameters. */
    method MakeGenericTypeExp(type_: Ref, nonGenerics: seq<Ref>) returns (g: Ref, halts: bool, ghost m: map<Ref, Ref>)
      requires Valid() && Cell(cells, type_) && InStore(cells, nonGenerics)
      modifies `cells, `rank
      ensures halts ==> Valid() && |cells| >= |old(cells)| && Cell(cells, g)
      ensures halts ==>
                CopyMade(old(cells), old(rank), Generalisation(old(cells), old(rank), nonGenerics), cells, rank,
                         type_, g, m)
      ensures halts <==>
                version.AsMeant? ||
                InOrder([], Variables(old(cells), old(rank), type_), AllVariables(old(cells), old(rank), nonGenerics))
      ensures nonGenerics == [] ==> halts
    {
      ghost var s, r, plan := cells, rank, Generalisation(cells, rank, nonGenerics);
      WholeEnds(version, s, r, nonGenerics, type_);
      hide CopyStep, CopyingTypes, Ranked, Copied, CleanedUp, Generalisation, CopyMade, CopyEnds, InOrder;
      CopyingStarts(s, r, plan);
      g, halts := MakeGenericTypeExpImpl(type_, nonGenerics, s, r, plan);
      m := map[];
      if !halts { return; }
      ghost var s1 := cells;
      CopyIsMade(s, r, plan, s1, rank, type_, g);
      m := Replacements(s, s1);
      CleanupTypeVariables(type_);
      CleanedUpAll(s, r, plan, s1, rank, type_, g, cells);
    }

    /** Puts new variables in the place of generic ones and removes the memos again. */
    method MakeFreshTypeExp(type_: Ref) returns (g: Ref, ghost m: map<Ref, Ref>)
      requires Valid() && Cell(cells, type_)
      modifies `cells, `rank
      ensures Valid() && |cells| >= |old(cells)| && Cell(cells, g)
      ensures CopyMade(old(cells), old(rank), INSTANTIATION, cells, rank, type_, g, m)
    {
      ghost var s, r := cells, rank;
      hide CopyStep, CopyingTypes, Ranked, Copied, CleanedUp, CopyMade;
      CopyingStarts(s, r, INSTANTIATION);
      g := MakeFreshTypeExpCopy(type_, s, r);
      ghost var s1 := cells;
      CopyIsMade(s, r, INSTANTIATION, s1, rank, type_, g);
      m := Replacements(s, s1);
      CleanupTypeVariables(type_);
      CleanedUpAll(s, r, INSTANTIATION, s1, rank, type_, g, cells);
    }

    /** A new instance of the type of a name, or NULL if there is no such name. */
    method LookupType(env: TypeEnvironment, id: Symbol) returns (t: Ref, ghost m: map<Ref, Ref>)
      requires Valid() && CellsOf(cells, env)
      modifies `cells, `rank
      ensures Valid() && |cells| >= |old(cells)| && (t == NULL <==> LookUp(env, id) == NULL)
      ensures t != NULL ==>
                && Cell(cells, t) && Cell(old(cells), LookUp(env, id))
                && CopyMade(old(cells), old(rank), INSTANTIATION, cells, rank, LookUp(env, id), t, m)
      ensures t == NULL ==> cells == old(cells) && rank == old(rank)
    {
      hide Ranked, CopyMade;
      var e := env;
      while e.BindType?
        invariant CellsOf(cells, e) && LookUp(e, id) == LookUp(env, id)
        invariant cells == old(cells) && rank == old(rank)
        decreases e
      {
        if e.id == id {
          t, m := MakeFreshTypeExp(e.type_);
          return;
        }
        e := e.parent;
      }
      return NULL, map[];
    }

    // ----- Analysis -----

    method ReportTypeError()
      modifies `errors
      ensures errors == old(errors) + 1
    {
      errors := errors + 1;
    }

    method AnalyzeIdentifier(node: Expr, env: TypeEnvironment, ghost nonGenerics: seq<Ref>) returns (t: Ref)
      requires node.Identifier? && Ready(cells, rank, errors, env, nonGenerics)
      modifies `cells, `rank, `errors
      ensures errors >= old(errors) && Analyzed(old(cells), old(rank), cells, rank, errors, env, nonGenerics, node, t)
      ensures Exact(old(cells), old(rank), old(errors), cells, rank, errors, env, node, t)
    {
      hide Ranked, CopyMade, Scope, Inferred, Exact;
      ghost var m;
      t, m := LookupType(env, node.id);
      if t == NULL {
        UnboundIsExact(cells, rank, errors, env, nonGenerics, node);
        ReportTypeError();
        ErrorIsCell(cells, rank);
        return ERROR;
      }
      IdentifierAnalyzed(old(cells), old(rank), cells, rank, errors, env, nonGenerics, node, t, m);
      IdentifierIsExact(old(cells), old(rank), errors, cells, rank, env, nonGenerics, node, t, m);
    }

    method AnalyzeApply(node: Expr, env: TypeEnvironment, nonGenerics: seq<Ref>) returns (t: Ref, halts: bool)
      requires node.Apply? && Ready(cells, rank, errors, env, nonGenerics)
      modifies this
      ensures errors >= old(errors)
      ensures halts ==> Analyzed(old(cells), old(rank), cells, rank, errors, env, nonGenerics, node, t)
      ensures halts ==> Exact(old(cells), old(rank), old(errors), cells, rank, errors, env, node, t)
      ensures Comes(version, DefinitionsOf(node), old(reached), reached, halts)
      ensures version.AsMeant? || Flat(node, nonGenerics == []) ==> halts
      decreases node, 0
    {
      hide Ranked, Inferred, Unified, Simple, Domain, Ready, Analyzed, Exact, PartsExact, TestExact, RecExact, Comes,
           Settles;
      ghost var s0, r0, ng := cells, rank, nonGenerics;
      t := NULL;
      var functionType: Ref, argType: Ref;
      functionType, halts := Analyze(node.function_, env, nonGenerics);
      if !halts {
        ComesNoFurther(version, DefinitionsOf(node.function_), DefinitionsOf(node.argument), old(reached), reached);
        return;
      }
      ghost var reached1 := reached;
      ghost var s1, r1, errors1 := cells, rank, errors;
      StillReady(s0, r0, old(errors), s1, r1, errors, env, ng, node.function_, functionType);
      argType, halts := Analyze(node.argument, env, nonGenerics);
      ComesThen(version, DefinitionsOf(node.function_), DefinitionsOf(node.argument), old(reached), reached1, reached,
                halts);
      if !halts { return; }
      ghost var s2, r2 := cells, rank;
      BothAnalyzed(s0, r0, s1, r1, errors1, s2, r2, errors, env, ng, node.function_, functionType, node.argument,
                   argType);
      PartsAreExact(s0, r0, old(errors), s1, r1, errors1, s2, r2, errors, env, ng, node, functionType, argType);
      AnalyzedFacts(s0, r0, s2, r2, errors, env, ng, node.argument, argType);
      var wrong := IsErrorType(functionType);
      if !wrong { wrong := IsErrorType(argType); }
      if wrong {
        ErrorIsCell(cells, rank);
        if cells[functionType].kind == ErrorKind {
          ErrorReported(s0, r0, s2, r2, errors, env, ng, node.function_, functionType);
        } else {
          ErrorReported(s0, r0, s2, r2, errors, env, ng, node.argument, argType);
        }
        FailedAnalysis(s0, r0, s2, r2, errors, env, ng, node.argument, argType, node);
        FailureIsExact(s0, r0, old(errors), s2, r2, errors, env, node, functionType, argType, ERROR);
        return ERROR, true;
      }
      t := MakeTypeVar();
      var calledAs := MakeFunctionType(argType, t);
      ghost var s3, r3, errors3 := cells, rank, errors;
      Unify(calledAs, functionType, Domain(s0, r0, ng));
      ApplyAnalyzed(s0, r0, s2, r2, s3, r3, errors3, cells, rank, errors, env, ng, node, functionType, argType);
      ApplyIsExact(s0, r0, old(errors), s2, r2, s3, r3, errors3, cells, rank, errors, env, ng, node, functionType,
                   argType);
    }

    method AnalyzeLambda(node: Expr, env: TypeEnvironment, nonGenerics: seq<Ref>) returns (t: Ref, halts: bool)
      requires node.Lambda? && Ready(cells, rank, errors, env, nonGenerics)
      modifies this
      ensures errors >= old(errors)
      ensures halts ==> Analyzed(old(cells), old(rank), cells, rank, errors, env, nonGenerics, node, t)
      ensures halts ==> Exact(old(cells), old(rank), old(errors), cells, rank, errors, env, node, t)
      ensures Comes(version, DefinitionsOf(node), old(reached), reached, halts)
      ensures version.AsMeant? || Flat(node, nonGenerics == []) ==> halts
      decreases node, 0
    {
      hide Ranked, Inferred, Unified, Simple, Domain, Ready, Analyzed, CopyMade, Exact, PartsExact, TestExact, RecExact,
           Comes, Settles, InOrder;
      ghost var s0, r0, ng := cells, rank, nonGenerics;
      t := NULL;
      ReadyFacts(s0, r0, errors, env, ng);
      var argType := MakeTypeVar();
      var newEnv, newNonGenerics := BindType(node.param, argType, env), [argType] + nonGenerics;
      ghost var s1, r1 := cells, rank;
      ParameterReady(s0, r0, errors, env, ng, node.param);
      var resultType: Ref;
      resultType, halts := Analyze(node.body, newEnv, newNonGenerics);
      if !halts { return; }
      ghost var s2, r2 := cells, rank;
      AnalyzedFacts(s1, r1, s2, r2, errors, newEnv, newNonGenerics, node.body, resultType);
      t := MakeFunctionType(argType, resultType);
      LambdaAnalyzed(s0, r0, old(errors), s2, r2, errors, cells, rank, env, ng, node, resultType);
      LambdaIsExact(s0, r0, old(errors), s2, r2, errors, cells, rank, env, ng, node, resultType);
    }

    method AnalyzeLet(node: Expr, env: TypeEnvironment, nonGenerics: seq<Ref>) returns (t: Ref, halts: bool)
      requires node.Let? && Ready(cells, rank, errors, env, nonGenerics)
      modifies this
      ensures errors >= old(errors)
      ensures halts ==> Analyzed(old(cells), old(rank), cells, rank, errors, env, nonGenerics, node, t)
      ensures halts ==> Exact(old(cells), old(rank), old(errors), cells, rank, errors, env, node, t)
      ensures Comes(version, DefinitionsOf(node), old(reached), reached, halts)
      ensures version.AsMeant? || Flat(node, nonGenerics == []) ==> halts
      decreases node, 0
    {
      hide Ranked, Inferred, Unified, Simple, Domain, Ready, Analyzed, CopyMade, Exact, PartsExact, TestExact, RecExact,
           Comes, Settles, InOrder, Found, NonGeneric;
      ghost var s0, r0, ng := cells, rank, nonGenerics;
      t := NULL;
      var definitionType: Ref;
      definitionType, halts := Analyze(node.value_, env, nonGenerics);
      ghost var d1, d2 := DefinitionsOf(node.value_), DefinitionsOf(node.body);
      if !halts {
        ComesShort(version, d1, [node], d2, old(reached), reached);
        return;
      }
      ghost var s1, r1 := cells, rank;
      AnalyzedFacts(s0, r0, s1, r1, errors, env, ng, node.value_, definitionType);
      ghost var tv, m := definitionType, map[];
      ghost var here, reached1 := Definition(node, env, ng, s0, r0, old(errors), s1, r1, errors, tv), reached;
      LetSettles(version, here);
      ComesTo(version, here, reached);
      reached := reached + [here];
      definitionType, halts, m := MakeGenericTypeExp(definitionType, nonGenerics);
      ComesThen(version, d1, [node], old(reached), reached1, reached, halts);
      if !halts {
        ComesNoFurther(version, d1 + [node], d2, old(reached), reached);
        return;
      }
      ghost var reached2 := reached;
      ghost var s2, r2 := cells, rank;
      LetReady(s0, r0, old(errors), s1, r1, s2, r2, errors, env, ng, node, tv, definitionType, m);
      ghost var errors2 := errors;
      t, halts := Analyze(node.body, BindType(node.id, definitionType, env), nonGenerics);
      ComesThen(version, d1 + [node], d2, old(reached), reached2, reached, halts);
      if halts {
        LetAnalyzed(s0, r0, old(errors), s1, r1, s2, r2, errors2, cells, rank, errors, env, ng, node, tv,
                    definitionType, m, t);
        LetIsExact(s0, r0, old(errors), s1, r1, s2, r2, errors2, cells, rank, errors, env, ng, node, tv,
                   definitionType, m, t);
      }
    }

    method AnalyzeLetRec(node: Expr, env: TypeEnvironment, nonGenerics: seq<Ref>) returns (t: Ref, halts: bool)
      requires node.LetRec? && Ready(cells, rank, errors, env, nonGenerics)
      modifies this
      ensures errors >= old(errors)
      ensures halts ==> Analyzed(old(cells), old(rank), cells, rank, errors, env, nonGenerics, node, t)
      ensures halts ==> Exact(old(cells), old(rank), old(errors), cells, rank, errors, env, node, t)
      ensures Comes(version, DefinitionsOf(node), old(reached), reached, halts)
      ensures version.AsMeant? || Flat(node, nonGenerics == []) ==> halts
      decreases node, 0
    {
      hide Ranked, Inferred, Unified, Simple, Domain, Ready, Analyzed, CopyMade, Exact, PartsExact, TestExact, RecExact,
           Comes, Settles, Found, Defined;
      ghost var s0, r0, ng := cells, rank, nonGenerics;
      t := NULL;
      ReadyFacts(s0, r0, errors, env, ng);
      var newType := MakeTypeVar();
      var newEnv, newNonGenerics := BindType(node.id, newType, env), [newType] + nonGenerics;
      ghost var sa, ra := cells, rank;
      ParameterReady(s0, r0, errors, env, ng, node.id);
      var definitionType: Ref;
      definitionType, halts := Analyze(node.value_, newEnv, newNonGenerics);
      ghost var d1, d2 := DefinitionsOf(node.value_), DefinitionsOf(node.body);
      if !halts {
        ComesShort(version, d1, [node], d2, old(reached), reached);
        return;
      }
      ghost var sb, rb, errorsb := cells, rank, errors;
      AnalyzedFacts(sa, ra, sb, rb, errors, newEnv, newNonGenerics, node.value_, definitionType);
      Unify(newType, definitionType, Domain(sa, ra, newNonGenerics));
      ghost var s1, r1 := cells, rank;
      RecUnified(s0, r0, old(errors), sa, ra, sb, rb, errorsb, s1, r1, errors, env, ng, node, definitionType);
      DefinitionIsExact(s0, r0, old(errors), sa, ra, sb, rb, errorsb, s1, r1, errors, env, ng, node, definitionType);
      ghost var here, reached1 := Definition(node, env, ng, s0, r0, old(errors), s1, r1, errors, newType), reached;
      DefinedFacts(s0, r0, s1, r1, errors, env, ng, node);
      LetRecSettles(version, here);
      t, halts := AnalyzeScope(node, newEnv, nonGenerics, newType, here);
      ComesThen(version, d1, [node] + d2, old(reached), reached1, reached, halts);
      assert d1 + ([node] + d2) == DefinitionsOf(node);
    }

    /** The rest of a recursive definition: its type is generalised, the name's variable redirected
        to it, and the body analysed. */
    method AnalyzeScope(node: Expr, newEnv: TypeEnvironment, nonGenerics: seq<Ref>, newType: Ref, ghost d: Definition)
      returns (t: Ref, halts: bool)
      requires node.LetRec? && d.e == node && d.ng == nonGenerics && newEnv == BindType(node.id, newType, d.env)
      requires Found(d) && d.s == cells && d.rank == rank && d.errors == errors && d.type_ == newType
      requires Ready(d.s0, d.r0, d.errors0, d.env, nonGenerics) && errors >= d.errors0
      modifies this
      ensures errors >= old(errors)
      ensures halts ==> Analyzed(d.s0, d.r0, cells, rank, errors, d.env, nonGenerics, node, t)
      ensures halts ==> Exact(d.s0, d.r0, d.errors0, cells, rank, errors, d.env, node, t)
      ensures Comes(version, [node] + DefinitionsOf(node.body), old(reached), reached, halts)
      ensures version.AsMeant? || (nonGenerics == [] && Flat(node.body, true)) ==> halts
      decreases node.body, 2
    {
      hide Ranked, Inferred, Unified, Simple, Domain, Ready, Analyzed, CopyMade, Exact, PartsExact, TestExact, RecExact,
           Comes, Settles, InOrder, Found, Defined, NonGeneric;
      ghost var s0, r0, errors0, env, ng := d.s0, d.r0, d.errors0, d.env, nonGenerics;
      ghost var s1, r1, ds := cells, rank, DefinitionsOf(node.body);
      LetRecFacts(d);
      NoParameters(s1, r1, newType);
      LetRecSettles(version, d);
      ComesTo(version, d, reached);
      reached := reached + [d];
      t := NULL;
      ghost var m, reached1 := map[], reached;
      var generic: Ref;
      generic, halts, m := MakeGenericTypeExp(newType, nonGenerics);
      if halts { SelfLinkExact(s1, r1, cells, rank, ng, newType, generic, m); }
      ghost var settles := halts && (version.AsMeant? || generic != newType);
      if !settles { ComesNoFurther(version, [node], ds, old(reached), reached); }
      if !halts { return; }
      ghost var s2, r2, errors2 := cells, rank, errors;
      SettledFacts(s0, r0, s1, r1, s2, r2, errors, env, ng, node, generic, m);
      if generic == newType {
        if version.AsWritten? { return newType, false; }
        KeptReady(s0, r0, errors0, s1, r1, s2, r2, errors, env, ng, node, m);
        t, halts := Analyze(node.body, newEnv, nonGenerics);
        ComesThen(version, [node], ds, old(reached), reached1, reached, halts);
        if halts {
          KeptAnalyzed(s0, r0, errors0, s1, r1, s2, r2, errors2, cells, rank, errors, env, ng, node, m, t);
          KeptIsExact(s0, r0, errors0, s1, r1, s2, r2, errors2, cells, rank, errors, env, ng, node, m, t);
        }
        return;
      }
      RedirectedRanked(s1, r1, s2, r2, ng, newType, generic, m);
      rank := Lifted(cells, rank, newType, generic);
      cells := cells[newType := cells[newType].(first := generic)];
      ghost var s3, r3 := cells, rank;
      RecReady(s0, r0, errors0, s1, r1, s2, r2, s3, r3, errors2, env, ng, node, generic, m);
      t, halts := Analyze(node.body, newEnv, nonGenerics);
      ComesThen(version, [node], ds, old(reached), reached1, reached, halts);
      if halts {
        RecAnalyzed(s0, r0, errors0, s1, r1, s2, r2, s3, r3, errors2, cells, rank, errors, env, ng, node, generic, m,
                    t);
        RecIsExact(s0, r0, errors0, s1, r1, s2, r2, s3, r3, errors2, cells, rank, errors, env, ng, node, generic, m, t);
      }
    }

    method AnalyzeIf(node: Expr, env: TypeEnvironment, nonGenerics: seq<Ref>) returns (t: Ref, halts: bool)
      requires node.If? && Ready(cells, rank, errors, env, nonGenerics)
      modifies this
      ensures errors >= old(errors)
      ensures halts ==> Analyzed(old(cells), old(rank), cells, rank, errors, env, nonGenerics, node, t)
      ensures halts ==> Exact(old(cells), old(rank), old(errors), cells, rank, errors, env, node, t)
      ensures Comes(version, DefinitionsOf(node), old(reached), reached, halts)
      ensures version.AsMeant? || Flat(node, nonGenerics == []) ==> halts
      decreases node, 0
    {
      hide Ranked, Inferred, Unified, Simple, Domain, Ready, Analyzed, CopyMade, Exact, PartsExact, TestExact, RecExact,
           Comes, Settles, InOrder;
      ghost var s0, r0, ng := cells, rank, nonGenerics;
      t := NULL;
      var testType: Ref, elseType: Ref;
      testType, halts := Analyze(node.test, env, nonGenerics);
      ghost var d1, d2, d3 := DefinitionsOf(node.test), DefinitionsOf(node.then_), DefinitionsOf(node.else_);
      if !halts {
        ComesShort(version, d1, d2, d3, old(reached), reached);
        return;
      }
      ghost var reached1 := reached;
      ghost var s1, r1, errors1 := cells, rank, errors;
      AnalyzedFacts(s0, r0, s1, r1, errors, env, ng, node.test, testType);
      Unify(testType, BOOLEAN, Domain(s0, r0, ng));
      ghost var s2, r2, errors2 := cells, rank, errors;
      TestAnalyzed(s0, r0, old(errors), s1, r1, errors1, s2, r2, errors2, env, ng, node.test, testType);
      TestIsExact(s0, r0, old(errors), s1, r1, errors1, s2, r2, errors2, env, ng, node.test, testType);
      t, halts := Analyze(node.then_, env, nonGenerics);
      ComesThen(version, d1, d2, old(reached), reached1, reached, halts);
      if !halts {
        ComesNoFurther(version, d1 + d2, d3, old(reached), reached);
        return;
      }
      ghost var reached2 := reached;
      ghost var s3, r3, errors3 := cells, rank, errors;
      StillReady(s2, r2, errors2, s3, r3, errors3, env, ng, node.then_, t);
      elseType, halts := Analyze(node.else_, env, nonGenerics);
      ComesThen(version, d1 + d2, d3, old(reached), reached2, reached, halts);
      if !halts { return; }
      ghost var s4, r4, errors4 := cells, rank, errors;
      BranchesAnalyzed(s0, r0, s2, r2, errors2, s3, r3, errors3, s4, r4, errors4, env, ng, node, testType, t, elseType);
      BranchesAreExact(s0, r0, old(errors), s2, r2, errors2, s3, r3, errors3, s4, r4, errors4, env, ng, node,
                       testType, t, elseType);
      Unify(t, elseType, Domain(s0, r0, ng));
      IfAnalyzed(s0, r0, s4, r4, errors4, cells, rank, errors, env, ng, node, testType, t, elseType);
      UnifyIsExact(s0, r0, old(errors), s4, r4, errors4, cells, rank, errors, env, ng, node, t, elseType, t, elseType);
      WholeIsExact(s0, r0, old(errors), cells, rank, errors, env, node, t, elseType, t);
    }

    method AnalyzeTuple(node: Expr, env: TypeEnvironment, nonGenerics: seq<Ref>) returns (t: Ref, halts: bool)
      requires node.Tuple? && Ready(cells, rank, errors, env, nonGenerics)
      modifies this
      ensures errors >= old(errors)
      ensures halts ==> Analyzed(old(cells), old(rank), cells, rank, errors, env, nonGenerics, node, t)
      ensures halts ==> Exact(old(cells), old(rank), old(errors), cells, rank, errors, env, node, t)
      ensures Comes(version, DefinitionsOf(node), old(reached), reached, halts)
      ensures version.AsMeant? || Flat(node, nonGenerics == []) ==> halts
      decreases node, 0
    {
      hide Ranked, Inferred, Unified, Simple, Domain, Ready, Analyzed, CopyMade, Exact, PartsExact, TestExact, RecExact,
           Comes, Settles, InOrder;
      ghost var s0, r0, ng := cells, rank, nonGenerics;
      t := NULL;
      var first: Ref, rest: Ref;
      first, halts := Analyze(node.first, env, nonGenerics);
      if !halts {
        ComesNoFurther(version, DefinitionsOf(node.first), DefinitionsOf(node.rest), old(reached), reached);
        return;
      }
      ghost var reached1 := reached;
      ghost var s1, r1, errors1 := cells, rank, errors;
      StillReady(s0, r0, old(errors), s1, r1, errors, env, ng, node.first, first);
      rest, halts := Analyze(node.rest, env, nonGenerics);
      ComesThen(version, DefinitionsOf(node.first), DefinitionsOf(node.rest), old(reached), reached1, reached, halts);
      if !halts { return; }
      ghost var s2, r2 := cells, rank;
      BothAnalyzed(s0, r0, s1, r1, errors1, s2, r2, errors, env, ng, node.first, first, node.rest, rest);
      PartsAreExact(s0, r0, old(errors), s1, r1, errors1, s2, r2, errors, env, ng, node, first, rest);
      t := MakeTupleType(first, rest);
      CleanStore(s2, r2);
      TupleAnalyzed(s0, r0, s2, r2, errors, cells, rank, env, ng, node, first, rest);
      TupleIsExact(s0, r0, old(errors), s2, r2, errors, cells, rank, env, node, first, rest);
    }

    method AnalyzeTupleFinal(node: Expr, env: TypeEnvironment, nonGenerics: seq<Ref>) returns (t: Ref, halts: bool)
      requires node.TupleFinal? && Ready(cells, rank, errors, env, nonGenerics)
      modifies this
      ensures errors >= old(errors)
      ensures halts ==> Analyzed(old(cells), old(rank), cells, rank, errors, env, nonGenerics, node, t)
      ensures halts ==> Exact(old(cells), old(rank), old(errors), cells, rank, errors, env, node, t)
      ensures Comes(version, DefinitionsOf(node), old(reached), reached, halts)
      ensures version.AsMeant? || Flat(node, nonGenerics == []) ==> halts
      decreases node, 0
    {
      hide Ranked, Inferred, Unified, Simple, Domain, Ready, Analyzed, CopyMade, Exact, PartsExact, TestExact, RecExact,
           Comes, Settles, InOrder;
      ghost var s0, r0, ng := cells, rank, nonGenerics;
      t := NULL;
      var first: Ref;
      first, halts := Analyze(node.first, env, nonGenerics);
      if !halts { return; }
      ghost var s1, r1 := cells, rank;
      AnalyzedFacts(s0, r0, s1, r1, errors, env, ng, node.first, first);
      t := MakeTupleFinalType(first);
      TupleFinalAnalyzed(s0, r0, s1, r1, errors, cells, rank, env, ng, node, first);
      TupleFinalIsExact(s0, r0, old(errors), s1, r1, errors, cells, rank, env, node, first);
    }

    method AnalyzeBinary(node: Expr, env: TypeEnvironment, nonGenerics: seq<Ref>) returns (t: Ref, halts: bool)
      requires node.Binary? && Ready(cells, rank, errors, env, nonGenerics)
      modifies this
      ensures errors >= old(errors)
      ensures halts ==> Analyzed(old(cells), old(rank), cells, rank, errors, env, nonGenerics, node, t)
      ensures halts ==> Exact(old(cells), old(rank), old(errors), cells, rank, errors, env, node, t)
      ensures Comes(version, DefinitionsOf(node), old(reached), reached, halts)
      ensures version.AsMeant? || Flat(node, nonGenerics == []) ==> halts
      decreases node, 0
    {
      hide Ranked, Inferred, Unified, Simple, Domain, Ready, Analyzed, CopyMade, Exact, PartsExact, TestExact, RecExact,
           Comes, Settles, InOrder;
      ghost var s0, r0, ng := cells, rank, nonGenerics;
      t := NULL;
      var left: Ref, right: Ref;
      left, halts := Analyze(node.left, env, nonGenerics);
      if !halts {
        ComesNoFurther(version, DefinitionsOf(node.left), DefinitionsOf(node.right), old(reached), reached);
        return;
      }
      ghost var reached1 := reached;
      ghost var s1, r1, errors1 := cells, rank, errors;
      StillReady(s0, r0, old(errors), s1, r1, errors, env, ng, node.left, left);
      right, halts := Analyze(node.right, env, nonGenerics);
      ComesThen(version, DefinitionsOf(node.left), DefinitionsOf(node.right), old(reached), reached1, reached, halts);
      if !halts { return; }
      ghost var s2, r2, errors2 := cells, rank, errors;
      BothAnalyzed(s0, r0, s1, r1, errors1, s2, r2, errors, env, ng, node.left, left, node.right, right);
      PartsAreExact(s0, r0, old(errors), s1, r1, errors1, s2, r2, errors, env, ng, node, left, right);
      AnalyzedFacts(s0, r0, s2, r2, errors, env, ng, node.left, left);
      if node.bop != Equals {
        Unify(left, INTEGER, Domain(s0, r0, ng));
        ghost var s3, r3, errors3 := cells, rank, errors;
        OperandAnalyzed(s0, r0, s2, r2, errors2, s3, r3, errors3, env, ng, node.left, left, node.right, right, left);
        UnifyIsExact(s0, r0, old(errors), s2, r2, errors2, s3, r3, errors3, env, ng, node, left, right, left, INTEGER);
        Unify(right, INTEGER, Domain(s0, r0, ng));
        OperandAnalyzed(s0, r0, s3, r3, errors3, cells, rank, errors, env, ng, node.left, left, node.right, right,
                        right);
        UnifyIsExact(s0, r0, old(errors), s3, r3, errors3, cells, rank, errors, env, ng, node, left, right, right,
                     INTEGER);
        if errors == 0 { SettledLater(s3, r3, cells, rank, left, TInt); }
      }
      ghost var s4, r4, errors4 := cells, rank, errors;
      Unify(left, right, Domain(s0, r0, ng));
      BinaryAnalyzed(s0, r0, s4, r4, errors4, cells, rank, errors, env, ng, node, left, right);
      t := if node.bop == Equals then BOOLEAN else INTEGER;
      UnifyIsExact(s0, r0, old(errors), s4, r4, errors4, cells, rank, errors, env, ng, node, left, right, left, right);
      WholeIsExact(s0, r0, old(errors), cells, rank, errors, env, node, left, right, t);
    }

    method AnalyzeUnary(node: Expr, env: TypeEnvironment, nonGenerics: seq<Ref>) returns (t: Ref, halts: bool)
      requires node.Unary? && Ready(cells, rank, errors, env, nonGenerics)
      modifies this
      ensures errors >= old(errors)
      ensures halts ==> Analyzed(old(cells), old(rank), cells, rank, errors, env, nonGenerics, node, t)
      ensures halts ==> Exact(old(cells), old(rank), old(errors), cells, rank, errors, env, node, t)
      ensures Comes(version, DefinitionsOf(node), old(reached), reached, halts)
      ensures version.AsMeant? || Flat(node, nonGenerics == []) ==> halts
      decreases node, 0
    {
      hide Ranked, Inferred, Unified, Simple, Domain, Ready, Analyzed, CopyMade, Exact, PartsExact, TestExact, RecExact,
           Comes, Settles, InOrder;
      ghost var s0, r0, ng := cells, rank, nonGenerics;
      t := NULL;
      t, halts := Analyze(node.arg, env, nonGenerics);
      if halts {
        UnaryAnalyzed(s0, r0, cells, rank, errors, env, ng, node, t);
        UnaryIsExact(s0, r0, old(errors), cells, rank, errors, env, node, t);
      }
    }

    /** The type of an expression, in which only the variables of enclosing parameters and new
        variables are bound; or an error. */
    method Analyze(node: Expr, env: TypeEnvironment, nonGenerics: seq<Ref>) returns (t: Ref, halts: bool)
      requires Ready(cells, rank, errors, env, nonGenerics)
      modifies this
      ensures errors >= old(errors)
      ensures halts ==> Analyzed(old(cells), old(rank), cells, rank, errors, env, nonGenerics, node, t)
      ensures halts ==> Exact(old(cells), old(rank), old(errors), cells, rank, errors, env, node, t)
      ensures Comes(version, DefinitionsOf(node), old(reached), reached, halts)
      ensures version.AsMeant? || Flat(node, nonGenerics == []) ==> halts
      decreases node, 1
    {
      hide Ranked, Inferred, Ready, Analyzed, Exact, PartsExact, TestExact, RecExact, Comes, Settles;
      halts := true;
      ComesNowhere(version, reached);
      match node {
        case Identifier(_) => t := AnalyzeIdentifier(node, env, nonGenerics);
        case Apply(_, _) => t, halts := AnalyzeApply(node, env, nonGenerics);
        case Lambda(_, _) => t, halts := AnalyzeLambda(node, env, nonGenerics);
        case Let(_, _, _) => t, halts := AnalyzeLet(node, env, nonGenerics);
        case LetRec(_, _, _) => t, halts := AnalyzeLetRec(node, env, nonGenerics);
        case If(_, _, _) => t, halts := AnalyzeIf(node, env, nonGenerics);
        case Binary(_, _, _) => t, halts := AnalyzeBinary(node, env, nonGenerics);
        case Unary(_, _) => t, halts := AnalyzeUnary(node, env, nonGenerics);
        case Tuple(_, _, _) => t, halts := AnalyzeTuple(node, env, nonGenerics);
        case TupleFinal(_) => t, halts := AnalyzeTupleFinal(node, env, nonGenerics);
        case Literal(_) =>
          ConstantAnalyzed(cells, rank, errors, env, nonGenerics, node);
          ConstantIsExact(cells, rank, errors, env, nonGenerics, node);
          t := INTEGER;
        case True =>
          ConstantAnalyzed(cells, rank, errors, env, nonGenerics, node);
          ConstantIsExact(cells, rank, errors, env, nonGenerics, node);
          t := BOOLEAN;
        case False =>
          ConstantAnalyzed(cells, rank, errors, env, nonGenerics, node);
          ConstantIsExact(cells, rank, errors, env, nonGenerics, node);
          t := BOOLEAN;
        case Error =>
          ErrorAnalyzed(cells, rank, errors, env, nonGenerics, node);
          ErrorIsExact(cells, rank, errors, env, nonGenerics, node);
          ReportTypeError();
          t := ERROR;
        case Invalid =>
          ErrorAnalyzed(cells, rank, errors, env, nonGenerics, node);
          ErrorIsExact(cells, rank, errors, env, nonGenerics, node);
          ReportTypeError();
          t := ERROR;
      }
    }

    /** The type of a program. An error is reported exactly if the program has no type; without
        one, the types of the program are exactly the instances of the type found. The checker comes
        back exactly if all definitions that it comes to settle, which are those of the program up to
        the first that does not. If definitions only occur outside of functions, they all do. */
    method GetExpressionType(node: Expr) returns (t: Ref, halts: bool)
      requires Valid()
      modifies this
      ensures errors >= old(errors)
      ensures halts ==> Valid() && Cell(cells, t)
      ensures halts && old(errors) == 0 ==> (errors == 0 <==> Typable(node))
      ensures halts && errors == 0 ==> forall a :: HasType(NoNames, node, a) <==> TypeOf(cells, rank, t, a)
      ensures Comes(version, DefinitionsOf(node), old(reached), reached, halts)
      ensures halts <==> forall i :: |old(reached)| <= i < |reached| ==> Settles(version, reached[i])
      ensures version.AsMeant? || Flat(node, true) ==> halts
    {
      ghost var s0, r0 := cells, rank;
      assert Ready(s0, r0, errors, Nothing, []);
      hide Ready, Exact, TypeOf, HasType, Typable, Comes, Settles;
      t, halts := Analyze(node, Nothing, []);
      ComesBack(version, DefinitionsOf(node), old(reached), reached, halts);
      if halts && old(errors) == 0 { ProgramTypes(s0, r0, cells, rank, errors, node, t); }
    }
  }

  /** Definitions only occur outside of functions. */
  predicate Flat(e: Expr, outside: bool) {
    match e
    case Lambda(_, body) => Flat(body, false)
    case Apply(f, a) => Flat(f, outside) && Flat(a, outside)
    case Let(_, value, body) => outside && Flat(value, outside) && Flat(body, outside)
    case LetRec(_, value, body) => outside && Flat(value, false) && Flat(body, outside)
    case If(test, a, b) => Flat(test, outside) && Flat(a, outside) && Flat(b, outside)
    case Binary(_, l, r) => Flat(l, outside) && Flat(r, outside)
    case Unary(_, a) => Flat(a, outside)
    case Tuple(first, rest, _) => Flat(first, outside) && Flat(rest, outside)
    case TupleFinal(first) => Flat(first, outside)
    case _ => true
  }
}
