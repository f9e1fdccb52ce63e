/** The smallest programs on which the checker does not come back, as it is written. */
module Endless {
  import opened Wrappers
  import opened Syntax
  import opened TypeCells
  import opened Unification
  import opened Schemes
  import opened Copying
  import opened Memos
  import opened CopySteps
  import opened Inference
  import opened RecursiveDefinitions
  import opened Halting
  import opened Analysis
  import opened Definitions

  const CONSTANTS: Store := [TypeExp(Int, NULL, NULL), TypeExp(Bool, NULL, NULL), TypeExp(ErrorKind, NULL, NULL)]

  /** The store in `fn x => fn y => let z = (y, x) in z` when the type of `z` is to be generalised: the
      variables of `x` and `y`, and the pair. */
  const PAIR: Store := CONSTANTS + [VARIABLE, VARIABLE, TypeExp(FinalKind, 3, NULL), TypeExp(TupleKind, 4, 5)]
  const PAIR_RANK: seq<nat> := [0, 0, 0, 1, 1, 2, 4]

  function PairDefinition(x: Symbol, y: Symbol, z: Symbol): Definition {
    Definition(Let(z, Expr.Tuple(Identifier(y), TupleFinal(Identifier(x)), 2), Identifier(z)),
               BindType(y, 4, BindType(x, 3, Nothing)), [4, 3], PAIR[..5], PAIR_RANK[..5], 0, PAIR, PAIR_RANK, 0, 6)
  }

  lemma PairRanked()
    ensures Ranked(PAIR, PAIR_RANK) && InStore(PAIR, [4, 3]) && |PAIR| == 7
    ensures PAIR[3] == VARIABLE && PAIR[4] == VARIABLE && PAIR[5] == TypeExp(FinalKind, 3, NULL)
    ensures PAIR[6] == TypeExp(TupleKind, 4, 5)
  {
  }

  /** The variable of `y` is met first and becomes its own memo, and the search for that of `x` through
      the parameters goes round in it. */
  lemma PairDoesNotSettle(x: Symbol, y: Symbol, z: Symbol)
    ensures var d := PairDefinition(x, y, z); Recorded(d) && !Settles(AsWritten, d) && Settles(AsMeant, d)
  {
    PairRanked();
    hide PAIR, PAIR_RANK, Ranked;
    var s, rank := PAIR, PAIR_RANK;
    assert Variables(s, rank, NULL) == [];
    assert Variables(s, rank, 3) == [3] && Variables(s, rank, 4) == [4];
    assert Variables(s, rank, 5) == [3];
    assert Variables(s, rank, 6) == [4, 3];
    PairParameters();
    var all, order := [4, 3], [4, 3];
    assert [] + all == all && all[..1] == [4] && order[..0] == [];
    assert order[0] in all[..1] && all[1] !in all[..1] && all[1] !in order[..0];
  }

  lemma PairParameters()
    ensures Ranked(PAIR, PAIR_RANK) && InStore(PAIR, [4, 3]) && AllVariables(PAIR, PAIR_RANK, [4, 3]) == [4, 3]
  {
    PairRanked();
    hide PAIR, PAIR_RANK, Ranked;
    var s, rank := PAIR, PAIR_RANK;
    assert Variables(s, rank, 3) == [3] && Variables(s, rank, 4) == [4];
    assert [4, 3][1..] == [3] && [3][1..] == [];
    assert AllVariables(s, rank, []) == [];
    assert AllVariables(s, rank, [3]) == [3];
  }

  /** A name whose type is an unbound variable. */
  lemma VariableFound(s: Store, rank: seq<nat>, env: TypeEnvironment, ng: seq<Ref>, id: Symbol)
    requires Ready(s, rank, 0, env, ng) && Cell(s, LookUp(env, id)) && s[LookUp(env, id)] == VARIABLE
    ensures Analyzed(s, rank, s, rank, 0, env, ng, Identifier(id), LookUp(env, id))
    ensures Exact(s, rank, 0, s, rank, 0, env, Identifier(id), LookUp(env, id))
  {
    var c := LookUp(env, id);
    NothingCopied(s, rank, c);
    hide CopyMade, Ranked, Scope;
    IdentifierAnalyzed(s, rank, s, rank, 0, env, ng, Identifier(id), c, map[]);
    IdentifierIsExact(s, rank, 0, s, rank, env, ng, Identifier(id), c, map[]);
  }

  lemma ReadyInStore(s: Store, rank: seq<nat>, errors: nat, env: TypeEnvironment)
    requires Ready(s, rank, errors, env, [4, 3])
    ensures Ranked(s, rank) && InStore(s, [4, 3])
  {
  }

  lemma NothingCopied(s: Store, rank: seq<nat>, c: Ref)
    requires Ranked(s, rank) && Cell(s, c) && s[c] == VARIABLE
    ensures CopyMade(s, rank, INSTANTIATION, s, rank, c, c, map[])
  {
  }

  /** Two parameters, from the beginning. */
  lemma PairScope(x: Symbol, y: Symbol)
    ensures Ready(PAIR[..5], PAIR_RANK[..5], 0, BindType(y, 4, BindType(x, 3, Nothing)), [4, 3])
  {
    var s, r := CONSTANTS, [0, 0, 0];
    assert Ready(s, r, 0, Nothing, []);
    hide Ready;
    ParameterReady(s, r, 0, Nothing, [], x);
    assert [3] + [] == [3];
    ParameterReady(s + [VARIABLE], r + [1], 0, BindType(x, 3, Nothing), [3], y);
    assert [4] + [3] == [4, 3];
    assert PAIR[..5] == s + [VARIABLE] + [VARIABLE] && PAIR_RANK[..5] == r + [1] + [1];
  }

  lemma PairSteps()
    ensures var s5, r5, s6, r6 := PAIR[..5], PAIR_RANK[..5], PAIR[..6], PAIR_RANK[..6];
            && |s5| == |r5| == 5 && |s6| == |r6| == 6 && Ranked(s6, r6) && Ranked(PAIR, PAIR_RANK)
            && s5[3] == VARIABLE && s5[4] == VARIABLE
            && s6 == s5 + [TypeExp(FinalKind, 3, NULL)] && r6 == r5 + [r5[3] + 1]
            && PAIR == s6 + [TypeExp(TupleKind, 4, 5)] && PAIR_RANK == r6 + [r6[4] + r6[5] + 1]
  {
  }

  /** The checker's steps lead from there to the pair. */
  lemma PairFound(x: Symbol, y: Symbol, z: Symbol)
    requires x != y
    ensures Found(PairDefinition(x, y, z))
  {
    PairSteps();
    PairScope(x, y);
    PairRanked();
    hide Ready, Analyzed, Exact, Ranked, PAIR, PAIR_RANK, PartsExact, CONSTANTS, VARIABLE;
    PairAnalyzed(x, y, PAIR[..5], PAIR_RANK[..5], PAIR[..6], PAIR_RANK[..6], PAIR, PAIR_RANK);
  }

  lemma PairAnalyzed(x: Symbol, y: Symbol, s5: Store, r5: seq<nat>, s6: Store, r6: seq<nat>, s: Store, rank: seq<nat>)
    requires x != y && Ready(s5, r5, 0, BindType(y, 4, BindType(x, 3, Nothing)), [4, 3])
    requires |s5| == |r5| == 5 && |s6| == |r6| == 6 && Ranked(s6, r6) && Ranked(s, rank)
    requires s5[3] == VARIABLE && s5[4] == VARIABLE && s6 == s5 + [TypeExp(FinalKind, 3, NULL)]
    requires r6 == r5 + [r5[3] + 1] && s == s6 + [TypeExp(TupleKind, 4, 5)] && rank == r6 + [r6[4] + r6[5] + 1]
    ensures var value := Expr.Tuple(Identifier(y), TupleFinal(Identifier(x)), 2);
            var env := BindType(y, 4, BindType(x, 3, Nothing));
            && Analyzed(s5, r5, s, rank, 0, env, [4, 3], value, 6) && Exact(s5, r5, 0, s, rank, 0, env, value, 6)
  {
    hide Ready, Analyzed, Exact, Ranked, PartsExact;
    var ng, env := [4, 3], BindType(y, 4, BindType(x, 3, Nothing));
    var value := Expr.Tuple(Identifier(y), TupleFinal(Identifier(x)), 2);
    ReadyInStore(s5, r5, 0, env);
    VariableFound(s5, r5, env, ng, x);
    VariableFound(s5, r5, env, ng, y);
    TupleFinalAnalyzed(s5, r5, s5, r5, 0, s6, r6, env, ng, value.rest, 3);
    TupleFinalIsExact(s5, r5, 0, s5, r5, 0, s6, r6, env, value.rest, 3);
    BothAnalyzed(s5, r5, s5, r5, 0, s6, r6, 0, env, ng, value.first, 4, value.rest, 5);
    PartsAreExact(s5, r5, 0, s5, r5, 0, s6, r6, 0, env, ng, value, 4, 5);
    TupleAnalyzed(s5, r5, s6, r6, 0, s, rank, env, ng, value, 4, 5);
    TupleIsExact(s5, r5, 0, s6, r6, 0, s, rank, env, value, 4, 5);
  }

  /** The store in `fn y => let rec x = y in x`: unification has bound the variable of `y` to that of
      `x`. */
  const LINK: Store := CONSTANTS + [TypeExp(Variable, 4, NULL), VARIABLE]
  const LINK_RANK: seq<nat> := [0, 0, 0, 3, 1]

  function LinkDefinition(x: Symbol, y: Symbol): Definition {
    Definition(LetRec(x, Identifier(y), Identifier(x)), BindType(y, 3, Nothing), [3],
               CONSTANTS + [VARIABLE], [0, 0, 0, 1], 0, LINK, LINK_RANK, 0, 4)
  }

  lemma LinkRanked()
    ensures Ranked(LINK, LINK_RANK) && |LINK| == 5 && LINK[3] == TypeExp(Variable, 4, NULL) && LINK[4] == VARIABLE
  {
  }

  /** The variable of `x` would be redirected to itself. */
  lemma LinkDoesNotSettle(x: Symbol, y: Symbol)
    ensures var d := LinkDefinition(x, y); Recorded(d) && !Settles(AsWritten, d) && Settles(AsMeant, d)
  {
    LinkRanked();
    hide LINK, LINK_RANK, Ranked, Variables, InOrder;
    assert Within(LINK, LINK_RANK, 4, 4);
    assert Within(LINK, LINK_RANK, 4, 3);
    assert [3][0] == 3 && NonGeneric(LINK, LINK_RANK, 4, [3]);
  }

  lemma LinkScope(y: Symbol)
    ensures Ready(CONSTANTS + [VARIABLE], [0, 0, 0, 1], 0, BindType(y, 3, Nothing), [3])
  {
    assert Ready(CONSTANTS, [0, 0, 0], 0, Nothing, []);
    hide Ready;
    ParameterReady(CONSTANTS, [0, 0, 0], 0, Nothing, [], y);
    assert [3] + [] == [3] && |CONSTANTS| == 3 && [0, 0, 0] + [1] == [0, 0, 0, 1];
  }

  lemma LinkSteps()
    ensures var s, rank := CONSTANTS + [VARIABLE, VARIABLE], [0, 0, 0, 1, 1];
            && Ranked(s, rank) && WellFormed(s) && |s| == 5 && s[3] == VARIABLE && s[4] == VARIABLE
            && !Within(s, rank, 3, 4) && Bind(s, 3, 4) == LINK && Lifted(s, rank, 3, 4) == LINK_RANK
  {
    var s, rank := CONSTANTS + [VARIABLE, VARIABLE], [0, 0, 0, 1, 1];
    assert Ranked(s, rank) && s[3] == VARIABLE && s[4] == VARIABLE;
    assert Within(s, rank, 3, 3) && !Within(s, rank, 3, 4);
    assert Bind(s, 3, 4) == LINK;
    assert Lifted(s, rank, 3, 4) == LINK_RANK;
  }

  /** Unifying the variable of `x` with that of `y` binds the latter. */
  lemma LinkUnified(s: Store, rank: seq<nat>, d: iset<Ref>)
    requires Ranked(s, rank) && WellFormed(s) && |s| == 5 && s[3] == VARIABLE && s[4] == VARIABLE
    requires !Within(s, rank, 3, 4)
    ensures var s', rank' := Bind(s, 3, 4), Lifted(s, rank, 3, 4);
            Ranked(s', rank') && WellFormed(s') && Unified(s, rank, s', rank', 4, 3, d, false)
  {
    hide Unified, Within, Lifted, Ranked, WellFormed;
    BindUnifies(s, rank, 3, 4, d);
    RankedIsWellFormed(Bind(s, 3, 4), Lifted(s, rank, 3, 4));
    UnifiedSwapped(s, rank, Bind(s, 3, 4), Lifted(s, rank, 3, 4), 4, 3, d, false);
  }

  lemma RankedIsWellFormed(s: Store, rank: seq<nat>)
    requires Ranked(s, rank)
    ensures WellFormed(s)
  {
  }

  /** The checker's steps lead to that store. */
  lemma LinkFound(x: Symbol, y: Symbol)
    requires x != y
    ensures Found(LinkDefinition(x, y))
  {
    LinkScope(y);
    LinkRanked();
    LinkSteps();
    LinkSums();
    hide Ready, Analyzed, Exact, Unified, LINK, LINK_RANK, RecExact, Defined, Ranked, WellFormed, Within, Bind, Lifted,
         CONSTANTS, VARIABLE;
    LinkAnalyzed(x, y, CONSTANTS + [VARIABLE], [0, 0, 0, 1], CONSTANTS + [VARIABLE, VARIABLE], [0, 0, 0, 1, 1]);
  }

  lemma LinkSums()
    ensures CONSTANTS + [VARIABLE, VARIABLE] == CONSTANTS + [VARIABLE] + [VARIABLE] && |CONSTANTS + [VARIABLE]| == 4
    ensures [0, 0, 0, 1, 1] == [0, 0, 0, 1] + [1]
  {
  }

  lemma LinkAnalyzed(x: Symbol, y: Symbol, s0: Store, r0: seq<nat>, s: Store, rank: seq<nat>)
    requires x != y && Ready(s0, r0, 0, BindType(y, 3, Nothing), [3]) && |s0| == 4
    requires s == s0 + [VARIABLE] && rank == r0 + [1] && s[3] == VARIABLE && s[4] == VARIABLE
    requires Ranked(s, rank) && WellFormed(s) && |s| == 5 && !Within(s, rank, 3, 4)
    ensures var e, env := LetRec(x, Identifier(y), Identifier(x)), BindType(y, 3, Nothing);
            var s1, r1 := Bind(s, 3, 4), Lifted(s, rank, 3, 4);
            && Defined(s0, r0, s1, r1, 0, env, [3], e) && RecExact(s0, r0, 0, s1, r1, 0, env, x, Identifier(y), 4)
  {
    hide Ready, Analyzed, Exact, Unified, RecExact, Defined, Ranked, WellFormed, Within, Bind, Lifted;
    var e, env := LetRec(x, Identifier(y), Identifier(x)), BindType(y, 3, Nothing);
    assert [4] + [3] == [4, 3];
    ParameterReady(s0, r0, 0, env, [3], x);
    VariableFound(s, rank, BindType(x, 4, env), [4, 3], y);
    ReadyInStore(s, rank, 0, BindType(x, 4, env));
    var d := Domain(s, rank, [4, 3]);
    LinkUnified(s, rank, d);
    RecUnified(s0, r0, 0, s, rank, s, rank, 0, Bind(s, 3, 4), Lifted(s, rank, 3, 4), 0, env, [3], e, 3);
    DefinitionIsExact(s0, r0, 0, s, rank, s, rank, 0, Bind(s, 3, 4), Lifted(s, rank, 3, 4), 0, env, [3], e, 3);
  }
}
