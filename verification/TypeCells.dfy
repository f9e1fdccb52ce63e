/** Types as the checker stores them, cells that point to each other, and what they stand for. */
module TypeCells {

  /** A pointer to a cell: its index in the store. */
  type Ref = int

  const NULL: Ref := -1

  datatype Kind = InvalidKind | ErrorKind | Func | Variable | Generic | Int | Bool | TupleKind | FinalKind

  /** The two fields are shared between the kinds: the first is also where a bound variable
      points, the second also the memo of a variable. */
  datatype TypeExp = TypeExp(kind: Kind, first: Ref, second: Ref)

  type Store = seq<TypeExp>

  /** The three types that are not allocated. */
  const INTEGER: Ref := 0
  const BOOLEAN: Ref := 1
  const ERROR: Ref := 2

  predicate Cell(s: Store, r: Ref) { 0 <= r < |s| }

  predicate WellFormedCell(c: TypeExp, n: nat) {
    match c.kind
    case Variable => NULL <= c.first < n && c.second == NULL
    case Func => 0 <= c.first < n && 0 <= c.second < n
    case TupleKind => 0 <= c.first < n && 0 <= c.second < n
    case FinalKind => 0 <= c.first < n && c.second == NULL
    case _ => c.first == NULL && c.second == NULL
  }

  /** Every pointer leads to a cell, and no variable has a memo. */
  ghost predicate WellFormed(s: Store) {
    && |s| >= 3 && s[INTEGER].kind == Int && s[BOOLEAN].kind == Bool && s[ERROR].kind == ErrorKind
    && forall i :: 0 <= i < |s| ==> WellFormedCell(s[i], |s|)
  }

  predicate Below(rank: seq<nat>, r: Ref, n: nat) {
    r == NULL || (0 <= r < |rank| && rank[r] < n)
  }

  /** The pointers never lead round in a circle: every one leads to a cell of lower rank. */
  ghost predicate Ranked(s: Store, rank: seq<nat>) {
    && WellFormed(s) && |rank| == |s|
    && forall i :: 0 <= i < |s| ==>
         && Below(rank, s[i].first, rank[i]) && Below(rank, s[i].second, rank[i])
         && (s[i].kind == Variable ==> rank[i] > 0)
  }

  predicate IsUnbound(c: TypeExp) { c.kind == Variable && c.first == NULL }

  predicate IsBound(c: TypeExp) { c.kind == Variable && c.first != NULL }

  /** The cells whose types nothing else in the store determines. */
  predicate Leaf(c: TypeExp) { IsUnbound(c) || c.kind == Generic || c.kind == ErrorKind }

  function Unbound(s: Store): set<nat> {
    set i: nat | i < |s| && IsUnbound(s[i])
  }

  // ----- What a store means -----

  /** Types as trees. `TAtom` stands for types about which nothing is known. */
  datatype Type =
    | TInt | TBool | TInvalid
    | TAtom(id: nat)
    | TFunc(from: Type, to: Type)
    | TTuple(first: Type, rest: Type)
    | TFinal(only: Type)

  /** Whether a type for every cell is right for one cell. */
  predicate SolvesCell(c: TypeExp, t: Type, den: seq<Type>)
    requires WellFormedCell(c, |den|)
  {
    match c.kind
    case Variable => c.first == NULL || t == den[c.first]
    case Func => t == TFunc(den[c.first], den[c.second])
    case TupleKind => t == TTuple(den[c.first], den[c.second])
    case FinalKind => t == TFinal(den[c.first])
    case Int => t == TInt
    case Bool => t == TBool
    case InvalidKind => t == TInvalid
    case Generic => true
    case ErrorKind => true
  }

  /** A solution gives every cell a type that fits its kind, its arguments and its binding. */
  ghost predicate Solves(s: Store, den: seq<Type>)
    requires WellFormed(s)
  {
    |den| == |s| && forall i :: 0 <= i < |s| ==> SolvesCell(s[i], den[i], den)
  }

  /** The type of a cell if those of the leaves are what `free` says. */
  ghost function Resolve(s: Store, rank: seq<nat>, free: Ref -> Type, r: Ref): Type
    requires Ranked(s, rank) && Cell(s, r)
    decreases rank[r]
  {
    match s[r].kind
    case Variable => if s[r].first == NULL then free(r) else Resolve(s, rank, free, s[r].first)
    case Func => TFunc(Resolve(s, rank, free, s[r].first), Resolve(s, rank, free, s[r].second))
    case TupleKind => TTuple(Resolve(s, rank, free, s[r].first), Resolve(s, rank, free, s[r].second))
    case FinalKind => TFinal(Resolve(s, rank, free, s[r].first))
    case Int => TInt
    case Bool => TBool
    case InvalidKind => TInvalid
    case Generic => free(r)
    case ErrorKind => free(r)
  }

  ghost function Resolved(s: Store, rank: seq<nat>, free: Ref -> Type): (den: seq<Type>)
    requires Ranked(s, rank)
    ensures |den| == |s| && forall i :: 0 <= i < |s| ==> den[i] == Resolve(s, rank, free, i)
  {
    seq(|s|, i requires 0 <= i < |s| => Resolve(s, rank, free, i))
  }

  /** A store without circles is in solved form: its leaves may have any types ... */
  lemma ResolvedSolves(s: Store, rank: seq<nat>, free: Ref -> Type)
    requires Ranked(s, rank)
    ensures Solves(s, Resolved(s, rank, free))
    ensures forall i :: 0 <= i < |s| && Leaf(s[i]) ==> Resolved(s, rank, free)[i] == free(i)
  {
  }

  /** ... and they determine all others. */
  lemma {:induction false} ResolvedUnique(s: Store, rank: seq<nat>, free: Ref -> Type, den: seq<Type>, r: Ref)
    requires Ranked(s, rank) && Solves(s, den) && Cell(s, r)
    requires forall i :: 0 <= i < |s| && Leaf(s[i]) ==> den[i] == free(i)
    ensures den[r] == Resolve(s, rank, free, r)
    decreases rank[r]
  {
    assert SolvesCell(s[r], den[r], den);
    if s[r].first != NULL { ResolvedUnique(s, rank, free, den, s[r].first); }
    if s[r].second != NULL { ResolvedUnique(s, rank, free, den, s[r].second); }
  }

  // ----- Following bindings -----

  ghost function Pruned(s: Store, rank: seq<nat>, r: Ref): (p: Ref)
    requires Ranked(s, rank) && Cell(s, r)
    ensures Cell(s, p) && !IsBound(s[p]) && rank[p] <= rank[r]
    decreases rank[r]
  {
    if IsBound(s[r]) then Pruned(s, rank, s[r].first) else r
  }

  lemma {:induction false} PrunedSame(s: Store, rank: seq<nat>, r: Ref, den: seq<Type>)
    requires Ranked(s, rank) && Cell(s, r) && Solves(s, den)
    ensures den[Pruned(s, rank, r)] == den[r]
    decreases rank[r]
  {
    if IsBound(s[r]) {
      assert SolvesCell(s[r], den[r], den);
      PrunedSame(s, rank, s[r].first, den);
    }
  }

  // ----- Containment -----

  /** Cell `a` can be reached from cell `b`. */
  ghost predicate Within(s: Store, rank: seq<nat>, a: Ref, b: Ref)
    requires Ranked(s, rank) && Cell(s, a) && (b == NULL || Cell(s, b))
    decreases if b == NULL then 0 else rank[b] + 1
  {
    a == b || (b != NULL && (Within(s, rank, a, s[b].first) || Within(s, rank, a, s[b].second)))
  }

  lemma {:induction false} WithinPruned(s: Store, rank: seq<nat>, r: Ref)
    requires Ranked(s, rank) && Cell(s, r)
    ensures Within(s, rank, Pruned(s, rank, r), r)
    decreases rank[r]
  {
    if IsBound(s[r]) { WithinPruned(s, rank, s[r].first); }
  }

  lemma {:induction false} WithinTrans(s: Store, rank: seq<nat>, a: Ref, b: Ref, c: Ref)
    requires Ranked(s, rank) && Cell(s, a) && Cell(s, b) && Cell(s, c)
    requires Within(s, rank, a, b) && Within(s, rank, b, c)
    ensures Within(s, rank, a, c)
    decreases rank[c]
  {
    if b != c {
      if s[c].first != NULL && Within(s, rank, b, s[c].first) {
        WithinTrans(s, rank, a, b, s[c].first);
      } else {
        WithinTrans(s, rank, a, b, s[c].second);
      }
    }
  }

  lemma {:induction false} WithinRank(s: Store, rank: seq<nat>, a: Ref, b: Ref)
    requires Ranked(s, rank) && Cell(s, a) && Cell(s, b) && Within(s, rank, a, b)
    ensures a == b || rank[a] < rank[b]
    decreases rank[b]
  {
    if a != b {
      if s[b].first != NULL && Within(s, rank, a, s[b].first) {
        WithinRank(s, rank, a, s[b].first);
      } else {
        WithinRank(s, rank, a, s[b].second);
      }
    }
  }

  function Size(t: Type): nat {
    match t
    case TFunc(a, b) => Size(a) + Size(b) + 1
    case TTuple(a, b) => Size(a) + Size(b) + 1
    case TFinal(a) => Size(a) + 1
    case _ => 0
  }

  /** What a type contains is no larger, and smaller if it is not the type itself. */
  lemma {:induction false} WithinSmaller(s: Store, rank: seq<nat>, a: Ref, b: Ref, den: seq<Type>)
    requires Ranked(s, rank) && Cell(s, a) && Cell(s, b) && Within(s, rank, a, b) && Solves(s, den)
    ensures Size(den[a]) <= Size(den[b])
    ensures a != b && s[b].kind != Variable ==> Size(den[a]) < Size(den[b])
    decreases rank[b]
  {
    assert SolvesCell(s[b], den[b], den);
    if a != b {
      if Within(s, rank, a, s[b].first) {
        WithinSmaller(s, rank, a, s[b].first, den);
      } else {
        WithinSmaller(s, rank, a, s[b].second, den);
      }
    }
  }

  /** A type without generic variables and errors: the only kind that is ever unified as long as
      there is no error. */
  ghost predicate Mono(s: Store, rank: seq<nat>, r: Ref)
    requires Ranked(s, rank) && (r == NULL || Cell(s, r))
    decreases if r == NULL then 0 else rank[r] + 1
  {
    r == NULL || (s[r].kind != Generic && s[r].kind != ErrorKind && Mono(s, rank, s[r].first) &&
                  Mono(s, rank, s[r].second))
  }

  lemma {:induction false} MonoWithin(s: Store, rank: seq<nat>, a: Ref, b: Ref)
    requires Ranked(s, rank) && Cell(s, a) && Cell(s, b) && Within(s, rank, a, b) && Mono(s, rank, b)
    ensures Mono(s, rank, a)
    decreases rank[b]
  {
    if a != b {
      if s[b].first != NULL && Within(s, rank, a, s[b].first) {
        MonoWithin(s, rank, a, s[b].first);
      } else {
        MonoWithin(s, rank, a, s[b].second);
      }
    }
  }

  /** All unbound variables of a type are in `d`. */
  ghost predicate Confined(s: Store, rank: seq<nat>, r: Ref, d: iset<Ref>)
    requires Ranked(s, rank) && Cell(s, r)
  {
    forall v :: Cell(s, v) && IsUnbound(s[v]) && Within(s, rank, v, r) ==> v in d
  }

  lemma ConfinedWithin(s: Store, rank: seq<nat>, a: Ref, b: Ref, d: iset<Ref>)
    requires Ranked(s, rank) && Cell(s, a) && Cell(s, b) && Within(s, rank, a, b) && Confined(s, rank, b, d)
    ensures Confined(s, rank, a, d)
  {
    forall v | Cell(s, v) && IsUnbound(s[v]) && Within(s, rank, v, a) ensures v in d {
      WithinTrans(s, rank, v, a, b);
    }
  }

  // ----- Binding a variable -----

  function Bind(s: Store, a: Ref, b: Ref): Store
    requires Cell(s, a)
  {
    s[a := s[a].(first := b)]
  }

  /** Lifting everything above `a` makes room for `b` below it. */
  ghost function Lifted(s: Store, rank: seq<nat>, a: Ref, b: Ref): (r: seq<nat>)
    requires Ranked(s, rank) && Cell(s, a) && Cell(s, b)
    ensures |r| == |rank|
    ensures forall i :: 0 <= i < |s| ==> r[i] == rank[i] + if Within(s, rank, a, i) then rank[b] + 1 else 0
  {
    seq(|rank|, i requires 0 <= i < |s| => rank[i] + if Within(s, rank, a, i) then rank[b] + 1 else 0)
  }

  /** Binding a variable to a type it is not contained in makes no circle. */
  lemma BindRanked(s: Store, rank: seq<nat>, a: Ref, b: Ref)
    requires Ranked(s, rank) && Cell(s, a) && Cell(s, b) && s[a].kind == Variable && !Within(s, rank, a, b)
    ensures WellFormed(Bind(s, a, b)) && Ranked(Bind(s, a, b), Lifted(s, rank, a, b))
  {
    var s', rank' := Bind(s, a, b), Lifted(s, rank, a, b);
    forall i | 0 <= i < |s'| ensures WellFormedCell(s'[i], |s'|) {
      assert WellFormedCell(s[i], |s|);
    }
    forall i | 0 <= i < |s'| ensures Below(rank', s'[i].first, rank'[i]) && Below(rank', s'[i].second, rank'[i]) {
      assert Below(rank, s[i].first, rank[i]) && Below(rank, s[i].second, rank[i]);
    }
  }

  /** The solutions of the new store are those of the old one in which both have the same type. */
  lemma BindSolves(s: Store, rank: seq<nat>, a: Ref, b: Ref, den: seq<Type>)
    requires Ranked(s, rank) && Cell(s, a) && Cell(s, b) && IsUnbound(s[a]) && WellFormed(Bind(s, a, b))
    ensures Solves(Bind(s, a, b), den) <==> Solves(s, den) && den[a] == den[b]
  {
    var s' := Bind(s, a, b);
    if Solves(s, den) && den[a] == den[b] {
      forall i | 0 <= i < |s'| ensures SolvesCell(s'[i], den[i], den) {
        assert SolvesCell(s[i], den[i], den);
      }
    }
    if Solves(s', den) {
      assert SolvesCell(s'[a], den[a], den);
      forall i | 0 <= i < |s| ensures SolvesCell(s[i], den[i], den) {
        assert SolvesCell(s'[i], den[i], den);
      }
    }
  }

  /** A type that does not contain the variable is what it was. */
  lemma {:induction false} BindElsewhere(s: Store, rank: seq<nat>, a: Ref, b: Ref, rank': seq<nat>, r: Ref,
                                         free: Ref -> Type)
    requires Ranked(s, rank) && Cell(s, a) && Cell(s, b) && Ranked(Bind(s, a, b), rank') && Cell(s, r)
    requires !Within(s, rank, a, r)
    ensures forall v :: Cell(s, v) ==> (Within(Bind(s, a, b), rank', v, r) <==> Within(s, rank, v, r))
    ensures Mono(Bind(s, a, b), rank', r) == Mono(s, rank, r)
    ensures Resolve(Bind(s, a, b), rank', free, r) == Resolve(s, rank, free, r)
    decreases rank[r]
  {
    if s[r].first != NULL { BindElsewhere(s, rank, a, b, rank', s[r].first, free); }
    if s[r].second != NULL { BindElsewhere(s, rank, a, b, rank', s[r].second, free); }
  }

  // ----- How a store may change -----

  /** Cells are added, and unbound variables bound. */
  ghost predicate Later(s: Store, s': Store) {
    && |s| <= |s'|
    && forall i :: 0 <= i < |s| ==> s'[i] == s[i] || (IsUnbound(s[i]) && s'[i].kind == Variable)
  }

  /** ... but only variables in `d`, and only to types without generic variables, themselves
      confined to `d`. */
  ghost predicate Evolved(s: Store, s': Store, rank': seq<nat>, d: iset<Ref>)
    requires Ranked(s', rank')
  {
    && Later(s, s')
    && forall u :: 0 <= u < |s| && s'[u] != s[u] ==> u in d && Mono(s', rank', u) && Confined(s', rank', u, d)
  }

  lemma {:induction false} WithinLater(s: Store, rank: seq<nat>, s': Store, rank': seq<nat>, a: Ref, b: Ref)
    requires Ranked(s, rank) && Ranked(s', rank') && Later(s, s') && Cell(s, a) && Cell(s, b) && Within(s, rank, a, b)
    ensures Within(s', rank', a, b)
    decreases rank[b]
  {
    if a != b {
      assert s'[b] == s[b];
      if s[b].first != NULL && Within(s, rank, a, s[b].first) {
        WithinLater(s, rank, s', rank', a, s[b].first);
      } else {
        WithinLater(s, rank, s', rank', a, s[b].second);
      }
    }
  }

  /** What is in a type later is in one of the variables it had. */
  lemma {:induction false} LeafLater(s: Store, rank: seq<nat>, s': Store, rank': seq<nat>, v: Ref, c: Ref)
    returns (u: Ref)
    requires Ranked(s, rank) && Ranked(s', rank') && Later(s, s')
    requires Cell(s, c) && Cell(s', v) && Leaf(s'[v]) && Within(s', rank', v, c)
    ensures Cell(s, u) && Leaf(s[u]) && Within(s, rank, u, c) && Within(s', rank', v, u)
    decreases rank[c]
  {
    if Leaf(s[c]) {
      return c;
    } else if s[c].first != NULL && Within(s', rank', v, s[c].first) {
      u := LeafLater(s, rank, s', rank', v, s[c].first);
    } else {
      u := LeafLater(s, rank, s', rank', v, s[c].second);
    }
  }

  lemma {:induction false} EvolvedMono(s: Store, rank: seq<nat>, s': Store, rank': seq<nat>, d: iset<Ref>, c: Ref)
    requires Ranked(s, rank) && Ranked(s', rank') && Evolved(s, s', rank', d) && Cell(s, c) && Mono(s, rank, c)
    ensures Mono(s', rank', c)
    decreases rank[c]
  {
    if s'[c] == s[c] {
      if s[c].first != NULL { EvolvedMono(s, rank, s', rank', d, s[c].first); }
      if s[c].second != NULL { EvolvedMono(s, rank, s', rank', d, s[c].second); }
    }
  }

  lemma EvolvedConfined(s: Store, rank: seq<nat>, s': Store, rank': seq<nat>, d: iset<Ref>, e: iset<Ref>, c: Ref)
    requires Ranked(s, rank) && Ranked(s', rank') && Evolved(s, s', rank', d) && d <= e
    requires Cell(s, c) && Confined(s, rank, c, e)
    ensures Confined(s', rank', c, e)
  {
    forall v | Cell(s', v) && IsUnbound(s'[v]) && Within(s', rank', v, c) ensures v in e {
      var u := LeafLater(s, rank, s', rank', v, c);
      if s'[u] == s[u] {
        assert u == v;
      } else {
        assert Confined(s', rank', u, d);
      }
    }
  }

  lemma EvolvedTrans(s: Store, s1: Store, rank1: seq<nat>, s2: Store, rank2: seq<nat>, d: iset<Ref>, e: iset<Ref>)
    requires Ranked(s1, rank1) && Ranked(s2, rank2)
    requires Evolved(s, s1, rank1, d) && Evolved(s1, s2, rank2, e)
    requires e <= d
    ensures Evolved(s, s2, rank2, d)
  {
    forall u | 0 <= u < |s| && s2[u] != s[u] ensures u in d && Mono(s2, rank2, u) && Confined(s2, rank2, u, d) {
      if s1[u] != s[u] {
        EvolvedMono(s1, rank1, s2, rank2, e, u);
        EvolvedConfined(s1, rank1, s2, rank2, e, d, u);
      }
    }
  }
}
