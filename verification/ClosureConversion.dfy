/** Closure conversion in one pass: the symbols a function captures are discovered while its code
    is emitted, and turn out to be exactly its free variables. */
module ClosureConversion {
  import opened Wrappers
  import Semantics
  import opened Syntax
  import opened Bytecode
  import opened Machine
  import opened Codegen
  import opened Safety

  // ----- Which symbols are looked up -----

  /** Every lookup made while `e` is compiled finds what is in scope, and everything in `e` is
      compiled: tuples are proper chains whose members are what is compiled for them, which as
      written means that they are all equal, what is defined recursively is a function, and there
      are no error nodes. Nothing is asked of the registers. */
  predicate Sees(base: nat, c: Context, e: Expr)
    requires WellFormed(c)
    decreases e, 3
  {
    match e
    case Identifier(id) => Fresh(c, id)
    case Lambda(param, body) => SeesLambda(base, Allocate(c), INVALID_SYMBOL, param, body)
    case Apply(f, a) => SeesBoth(base, c, f, a, e)
    case Binary(_, l, r) => SeesBoth(base, c, l, r, e)
    case Let(id, value, body) =>
      var x := Gen(base, c, value);
      Sees(base, c, value) && Sees(base + |x.funcs|, Push(x.context, id, x.reg), body)
    case LetRec(id, value, body) =>
      id != INVALID_SYMBOL && value.Lambda? &&
      var d := Push(Allocate(c), id, NewRegister(c));
      var x := EmitLambda(base, d, id, value.param, value.body, NewRegister(c));
      SeesLambda(base, d, id, value.param, value.body) && Sees(base + |x.funcs|, x.context, body)
    case If(t, a, b) => SeesIf(base, c, t, a, b)
    case Unary(_, a) => Sees(base, c, a)
    case Tuple(_, _, n) =>
      && Chain(e, n) && Compiled(c.version, e) == MembersOf(e, n)
      && SeesMembers(base, Allocate(Allocate(c)), MembersOf(e, n), 0, e)
    case Literal(_) => true
    case True => true
    case False => true
    case _ => false
  }

  predicate SeesLambda(base: nat, c: Context, self: Symbol, param: Symbol, body: Expr)
    requires WellFormed(c)
    decreases body, 4
  {
    && Sees(base + 1, BodyContext(c.version, self, param), body)
    && forall s :: s in Gen(base + 1, BodyContext(c.version, self, param), body).context.closure ==> Fresh(c, s)
  }

  predicate SeesBoth(base: nat, c: Context, l: Expr, r: Expr, ghost whole: Expr)
    requires WellFormed(c) && l < whole && r < whole
    decreases whole, 2
  {
    var x := Gen(base, c, l);
    Sees(base, c, l) && Sees(base + |x.funcs|, x.context, r)
  }

  predicate SeesIf(base: nat, c: Context, t: Expr, a: Expr, b: Expr)
    requires WellFormed(c)
    decreases If(t, a, b), 2
  {
    var x := Gen(base, c, t);
    var y := Gen(base + |x.funcs|, Branches(x.context), a);
    && Sees(base, c, t) && Sees(base + |x.funcs|, Branches(x.context), a)
    && Sees(base + |x.funcs| + |y.funcs|, y.context, b)
  }

  predicate SeesMembers(base: nat, c: Context, ms: seq<Expr>, i: nat, ghost whole: Expr)
    requires WellFormed(c) && i <= |ms| && forall m :: m in ms ==> m < whole
    decreases whole, 2, |ms| - i
  {
    i < |ms| ==>
      assert ms[i] in ms;
      var v := Gen(base, c, ms[i]);
      Sees(base, c, ms[i]) && SeesMembers(base + |v.funcs|, v.context, ms, i + 1, whole)
  }

  /** Safe code does. */
  lemma {:induction false} SafeSees(base: nat, c: Context, e: Expr)
    requires WellFormed(c) && Safe(base, c, e)
    ensures Sees(base, c, e)
    decreases e, 1
  {
    hide Gen, Overwrites, Apart, SafeMembers, SeesMembers, EmitLambda, SafeLambda, SeesLambda;
    match e
    case Lambda(param, body) => SafeSeesLambda(base, Allocate(c), INVALID_SYMBOL, param, body);
    case Apply(f, a) => SafeSeesBoth(base, c, f, a, e);
    case Binary(_, l, r) => SafeSeesBoth(base, c, l, r, e);
    case Let(id, value, body) =>
      var x := Gen(base, c, value);
      SafeSees(base, c, value);
      SafeSees(base + |x.funcs|, Push(x.context, id, x.reg), body);
    case LetRec(id, value, body) =>
      var d := Push(Allocate(c), id, NewRegister(c));
      var x := EmitLambda(base, d, id, value.param, value.body, NewRegister(c));
      SafeSeesLambda(base, d, id, value.param, value.body);
      SafeSees(base + |x.funcs|, x.context, body);
    case If(t, a, b) => SafeSeesIf(base, c, t, a, b);
    case Unary(_, a) => SafeSees(base, c, a);
    case Tuple(_, _, n) =>
      SafeSeesMembers(base, Allocate(Allocate(c)), NewRegister(Allocate(c)), MembersOf(e, n), 0, e);
    case _ =>
  }

  lemma {:induction false} SafeSeesBoth(base: nat, c: Context, l: Expr, r: Expr, whole: Expr)
    requires WellFormed(c) && l < whole && r < whole && SafeBoth(base, c, l, r, whole)
    ensures SeesBoth(base, c, l, r, whole)
    decreases whole, 0
  {
    hide Gen, Overwrites, Apart, Safe, Sees;
    SafeSees(base, c, l);
    SafeSees(base + |Gen(base, c, l).funcs|, Gen(base, c, l).context, r);
  }

  lemma {:induction false} SafeSeesLambda(base: nat, c: Context, self: Symbol, param: Symbol, body: Expr)
    requires WellFormed(c) && SafeLambda(base, c, self, param, body)
    ensures SeesLambda(base, c, self, param, body)
    decreases body, 2
  {
    hide Gen, Overwrites, Apart, Safe, Sees;
    SafeSees(base + 1, BodyContext(c.version, self, param), body);
  }

  lemma {:induction false} SafeSeesIf(base: nat, c: Context, t: Expr, a: Expr, b: Expr)
    requires WellFormed(c) && SafeIf(base, c, t, a, b)
    ensures SeesIf(base, c, t, a, b)
    decreases If(t, a, b), 0
  {
    hide Gen, Overwrites, Apart, Safe, Sees;
    var x := Gen(base, c, t);
    var y := Gen(base + |x.funcs|, Branches(x.context), a);
    SafeSees(base, c, t);
    SafeSees(base + |x.funcs|, Branches(x.context), a);
    SafeSees(base + |x.funcs| + |y.funcs|, y.context, b);
  }

  lemma {:induction false} SafeSeesMembers(base: nat, c: Context, target: Byte, ms: seq<Expr>, i: nat, whole: Expr)
    requires WellFormed(c) && i <= |ms| && forall m :: m in ms ==> m < whole
    requires SafeMembers(base, c, target, ms, i, whole)
    ensures SeesMembers(base, c, ms, i, whole)
    decreases whole, 0, |ms| - i
  {
    hide Gen, Overwrites, Apart, Safe, Sees;
    if i < |ms| {
      assert ms[i] in ms;
      var v := Gen(base, c, ms[i]);
      SafeSees(base, c, ms[i]);
      SafeSeesMembers(base + |v.funcs|, v.context, target, ms, i + 1, whole);
    }
  }

  // ----- What is captured -----

  predicate NoneTwice(s: seq<Symbol>) {
    forall i, j :: 0 <= i < j < |s| ==> s[i] != s[j]
  }

  function Elements(symbols: seq<Symbol>): set<Symbol> {
    set s | s in symbols
  }

  /** The symbols of `vars` that have no binding in scope. */
  function Unbound(c: Context, vars: set<Symbol>): set<Symbol>
    requires WellFormed(c)
  {
    set s | s in vars && Find(c, s) == None
  }

  /** The closure of `d` is that of `c` and, appended to it without repetition, the symbols of
      `vars` that have no binding in scope. */
  ghost predicate Captures(c: Context, d: Context, vars: set<Symbol>)
    requires WellFormed(c)
  {
    && Elements(d.closure) == Elements(c.closure) + Unbound(c, vars)
    && (NoneTwice(c.closure) ==> NoneTwice(d.closure))
  }

  lemma CapturesTrans(c: Context, d: Context, e: Context, a: set<Symbol>, b: set<Symbol>)
    requires WellFormed(c) && Grows(c, d) && Captures(c, d, a) && Captures(d, e, b)
    ensures Captures(c, e, a + b)
  {
    forall s ensures Find(d, s) == Find(c, s) { FindGrows(c, d, s); }
    assert Unbound(c, a + b) == Unbound(c, a) + Unbound(d, b);
  }

  /** Captures depend on the scope and the closure, not on the registers taken so far. */
  lemma CapturesFrom(c: Context, d: Context, e: Context, vars: set<Symbol>)
    requires WellFormed(c) && d == c.(registers := d.registers) && Captures(d, e, vars)
    ensures Captures(c, e, vars)
  {
    assert Unbound(c, vars) == Unbound(d, vars);
  }

  lemma CapturesInto(c: Context, d: Context, e: Context, vars: set<Symbol>)
    requires WellFormed(c) && Captures(c, d, vars) && e.closure == d.closure
    ensures Captures(c, e, vars)
  {
  }

  lemma NothingCaptured(c: Context)
    requires WellFormed(c)
    ensures Captures(c, c, {})
  {
  }

  lemma IdentifierCaptures(c: Context, id: Symbol)
    requires WellFormed(c) && Fresh(c, id)
    ensures Captures(c, EmitIdentifier(c, id).context, {id})
  {
  }

  /** A binding that is pushed and popped again hides its symbol meanwhile. */
  lemma ScopeCaptures(c: Context, id: Symbol, reg: Byte, d: Context, vars: set<Symbol>)
    requires WellFormed(c) && Grows(Push(c, id, reg), d) && Captures(Push(c, id, reg), d, vars)
    ensures Captures(c, Pop(d), vars - {id})
  {
    forall s ensures Find(Push(c, id, reg), s) == None <==> s != id && Find(c, s) == None {
      FindPush(c, id, reg, s);
    }
    assert Unbound(c, vars - {id}) == Unbound(Push(c, id, reg), vars);
  }

  lemma {:induction false} SymbolsCaptured(c: Context, target: Byte, symbols: seq<Symbol>, i: nat)
    requires WellFormed(c) && i <= |symbols| && forall s :: s in symbols ==> Fresh(c, s)
    ensures Captures(c, EmitCaptures(c, target, symbols, i).context, Elements(symbols[i..]))
    decreases |symbols| - i
  {
    if i < |symbols| {
      var d := EmitIdentifier(c, symbols[i]).context;
      IdentifierCaptures(c, symbols[i]);
      forall s | s in symbols ensures Fresh(d, s) { assert Fresh(c, s); }
      SymbolsCaptured(d, target, symbols, i + 1);
      CapturesTrans(c, d, EmitCaptures(d, target, symbols, i + 1).context,
                    {symbols[i]}, Elements(symbols[i + 1..]));
      assert symbols[i..] == [symbols[i]] + symbols[i + 1..];
      assert Elements(symbols[i..]) == {symbols[i]} + Elements(symbols[i + 1..]);
    }
  }

  /** The symbols of a finished function: the free variables of its body other than its parameter
      and, in a `let rec`, its own name. */
  function FunctionVars(self: Symbol, param: Symbol, body: Expr): set<Symbol> {
    FreeVars(body) - {param} - (if self != INVALID_SYMBOL then {self} else {})
  }

  lemma {:induction false} FunctionCaptures(base: nat, c: Context, self: Symbol, param: Symbol, body: Expr)
    requires WellFormed(c) && SeesLambda(base, c, self, param, body)
    ensures var closure := Gen(base + 1, BodyContext(c.version, self, param), body).context.closure;
            && Elements(closure) == FunctionVars(self, param, body)
            && NoneTwice(closure)
    decreases body, 3
  {
    ClosureIsFreeVars(base + 1, BodyContext(c.version, self, param), body);
    forall s ensures Find(BodyContext(c.version, self, param), s) == None
                     <==> s != param && (self == INVALID_SYMBOL || s != self) {
      FindBody(c.version, self, param, s);
    }
  }

  lemma {:induction false} LambdaCaptures(base: nat, c: Context, self: Symbol, param: Symbol, body: Expr, target: Byte)
    requires WellFormed(c) && SeesLambda(base, c, self, param, body)
    ensures Captures(c, EmitLambda(base, c, self, param, body, target).context, FunctionVars(self, param, body))
    decreases body, 4
  {
    hide Gen, Sees, Captures, Encode;
    FunctionCaptures(base, c, self, param, body);
    var closure := Gen(base + 1, BodyContext(c.version, self, param), body).context.closure;
    var d := EmitLiteral(c, base).context;
    forall s | s in closure ensures Fresh(d, s) { assert Fresh(c, s); }
    SymbolsCaptured(d, target, closure, 0);
    assert closure[0..] == closure;
    CapturesFrom(c, d, EmitLambda(base, c, self, param, body, target).context, FunctionVars(self, param, body));
  }

  /** Compiling an expression captures its free variables, each once, and nothing else. */
  lemma {:induction false} ClosureIsFreeVars(base: nat, c: Context, e: Expr)
    requires WellFormed(c) && Sees(base, c, e)
    ensures Captures(c, Gen(base, c, e).context, FreeVars(e))
    decreases e, 1
  {
    hide Captures, EmitLambda, SeesLambda, SeesMembers, EmitMembers, Encode, EmitIf;
    match e
    case Identifier(id) => IdentifierCaptures(c, id);
    case Lambda(param, body) =>
      var d := Allocate(c);
      LambdaCaptures(base, d, INVALID_SYMBOL, param, body, NewRegister(c));
      assert FunctionVars(INVALID_SYMBOL, param, body) == FreeVars(body) - {param};
      CapturesFrom(c, d, EmitLambda(base, d, INVALID_SYMBOL, param, body, NewRegister(c)).context,
                   FreeVars(body) - {param});
    case Apply(f, a) => BothCapture(base, c, f, a, e);
    case Binary(_, l, r) => BothCapture(base, c, l, r, e);
    case Let(id, value, body) => LetCaptures(base, c, id, value, body);
    case LetRec(id, value, body) => LetRecCaptures(base, c, id, value, body);
    case If(t, a, b) => IfCaptures(base, c, t, a, b);
    case Unary(op, a) =>
      ClosureIsFreeVars(base, c, a);
      CapturesInto(c, Gen(base, c, a).context, EmitUnary(base, c, op, a).context, FreeVars(a));
    case Tuple(first, rest, n) => TupleCaptures(base, c, e);
    case _ => LiteralCaptures(base, c, e);
  }

  lemma LiteralCaptures(base: nat, c: Context, e: Expr)
    requires WellFormed(c) && (e.Literal? || e.True? || e.False?)
    ensures Captures(c, Gen(base, c, e).context, {})
  {
    var d := Gen(base, c, e).context;
    NothingCaptured(d);
    CapturesFrom(c, d, d, {});
  }

  lemma {:induction false} TupleCaptures(base: nat, c: Context, e: Expr)
    requires e.Tuple? && WellFormed(c) && Sees(base, c, e)
    ensures Captures(c, EmitTuple(base, c, e).context, FreeVars(e))
    decreases e, 0
  {
    hide Gen, Captures, EmitMembers, SeesMembers;
    var d := Allocate(Allocate(c));
    var out, ms := NewRegister(Allocate(c)), MembersOf(e, e.length);
    Semantics.ChainVars(e, e.length);
    MembersCapture(base, d, out, ms, 0, e);
    CapturesFrom(c, d, EmitMembers(base, d, out, ms, 0, e).context, FreeVars(e));
  }

  lemma {:induction false} BothCapture(base: nat, c: Context, l: Expr, r: Expr, whole: Expr)
    requires WellFormed(c) && l < whole && r < whole && SeesBoth(base, c, l, r, whole)
    ensures var x := Gen(base, c, l);
            Captures(c, Allocate(Gen(base + |x.funcs|, x.context, r).context), FreeVars(l) + FreeVars(r))
    decreases whole, 0
  {
    hide Gen, Sees, Captures, Encode;
    var x := Gen(base, c, l);
    ClosureIsFreeVars(base, c, l);
    ClosureIsFreeVars(base + |x.funcs|, x.context, r);
    var d := Gen(base + |x.funcs|, x.context, r).context;
    CapturesTrans(c, x.context, d, FreeVars(l), FreeVars(r));
    CapturesInto(c, d, Allocate(d), FreeVars(l) + FreeVars(r));
  }

  lemma {:induction false} IfCaptures(base: nat, c: Context, t: Expr, a: Expr, b: Expr)
    requires WellFormed(c) && SeesIf(base, c, t, a, b)
    ensures Captures(c, EmitIf(base, c, t, a, b).context, FreeVars(t) + FreeVars(a) + FreeVars(b))
    decreases If(t, a, b), 0
  {
    hide *;
    var x := Gen(base, c, t);
    var d := Branches(x.context);
    var y := Gen(base + |x.funcs|, d, a);
    var z := Gen(base + |x.funcs| + |y.funcs|, y.context, b);
    SeesIfParts(base, c, t, a, b);
    ClosureIsFreeVars(base, c, t);
    ClosureIsFreeVars(base + |x.funcs|, d, a);
    ClosureIsFreeVars(base + |x.funcs| + |y.funcs|, y.context, b);
    CapturesFrom(x.context, d, y.context, FreeVars(a));
    GrowsTrans(x.context, d, y.context);
    GrowsTrans(c, x.context, y.context);
    CapturesTrans(c, x.context, y.context, FreeVars(t), FreeVars(a));
    CapturesTrans(c, y.context, z.context, FreeVars(t) + FreeVars(a), FreeVars(b));
  }

  lemma SeesIfParts(base: nat, c: Context, t: Expr, a: Expr, b: Expr)
    requires WellFormed(c) && SeesIf(base, c, t, a, b)
    ensures var x := Gen(base, c, t);
            var d := Branches(x.context);
            var y := Gen(base + |x.funcs|, d, a);
            var z := Gen(base + |x.funcs| + |y.funcs|, y.context, b);
            && Sees(base, c, t) && Sees(base + |x.funcs|, d, a) && Sees(base + |x.funcs| + |y.funcs|, y.context, b)
            && d == x.context.(registers := d.registers) && EmitIf(base, c, t, a, b).context == z.context
  {
    hide Gen, Sees, IfCode, MoveCode, Grows;
  }

  lemma {:induction false} MembersCapture(base: nat, c: Context, target: Byte, ms: seq<Expr>, i: nat, whole: Expr)
    requires WellFormed(c) && i <= |ms| && (forall m :: m in ms ==> m < whole) && SeesMembers(base, c, ms, i, whole)
    ensures Captures(c, EmitMembers(base, c, target, ms, i, whole).context, MembersVars(ms, i))
    decreases whole, 0, |ms| - i
  {
    hide Gen, Sees, Captures, Encode;
    if i < |ms| {
      assert ms[i] in ms;
      var v := Gen(base, c, ms[i]);
      ClosureIsFreeVars(base, c, ms[i]);
      MembersCapture(base + |v.funcs|, v.context, target, ms, i + 1, whole);
      CapturesTrans(c, v.context, EmitMembers(base + |v.funcs|, v.context, target, ms, i + 1, whole).context,
                    FreeVars(ms[i]), MembersVars(ms, i + 1));
    } else {
      NothingCaptured(c);
    }
  }

  lemma {:induction false} LetCaptures(base: nat, c: Context, id: Symbol, value: Expr, body: Expr)
    requires WellFormed(c) && Sees(base, c, Let(id, value, body))
    ensures Captures(c, EmitLet(base, c, id, value, body).context, FreeVars(Let(id, value, body)))
    decreases Let(id, value, body), 0
  {
    hide Gen, Captures, Encode, WellFormed, Grows;
    var x := Gen(base, c, value);
    var d := Push(x.context, id, x.reg);
    var y := Gen(base + |x.funcs|, d, body);
    ClosureIsFreeVars(base, c, value);
    ClosureIsFreeVars(base + |x.funcs|, d, body);
    ScopeCaptures(x.context, id, x.reg, y.context, FreeVars(body));
    CapturesTrans(c, x.context, Pop(y.context), FreeVars(value), FreeVars(body) - {id});
  }

  lemma {:induction false} LetRecCaptures(base: nat, c: Context, id: Symbol, value: Expr, body: Expr)
    requires WellFormed(c) && Sees(base, c, LetRec(id, value, body))
    ensures Captures(c, EmitLetRec(base, c, id, value, body).context, FreeVars(LetRec(id, value, body)))
    decreases LetRec(id, value, body), 0
  {
    hide Gen, Captures, Encode;
    var target := NewRegister(c);
    var d := Push(Allocate(c), id, target);
    var x := EmitLambda(base, d, id, value.param, value.body, target);
    var y := Gen(base + |x.funcs|, x.context, body);
    var own := FunctionVars(id, value.param, value.body);
    LambdaCaptures(base, d, id, value.param, value.body, target);
    ClosureIsFreeVars(base + |x.funcs|, x.context, body);
    CapturesTrans(d, x.context, y.context, own, FreeVars(body));
    ScopeCaptures(Allocate(c), id, target, y.context, own + FreeVars(body));
    CapturesFrom(c, Allocate(c), Pop(y.context), own + FreeVars(body) - {id});
    assert own == FreeVars(value) - {id};
    assert own + FreeVars(body) - {id} == FreeVars(LetRec(id, value, body));
  }
}
