/** How many registers the code of a closed program takes, as written: whether its frame has the two
    that every call sets. */
module Frames {
  import opened Wrappers
  import opened Syntax
  import opened Bytecode
  import opened Machine
  import opened Codegen
  import opened Safety

  /** The registers the code takes if they are less than two, and otherwise at least two. */
  function Room(e: Expr): nat {
    match e
    case Literal(_) => 1
    case True => 1
    case False => 1
    case Let(_, value, body) => Room(value) + Room(body)
    case If(t, a, b) => Room(t) + Room(a) + Room(b)
    case Apply(f, a) => Room(f) + Room(a) + 1
    case Binary(_, l, r) => Room(l) + Room(r) + 1
    case Unary(_, a) => Room(a) + 1
    case Lambda(_, _) => 2
    case LetRec(_, _, _) => 2
    case Tuple(_, _, _) => 2
    case _ => 0
  }

  /** A version of the compiler gives the program a frame with the two registers that a call sets. */
  predicate Framed(v: Version, e: Expr) {
    v.AsMeant? || Room(e) >= 2
  }

  ghost predicate InScope(c: Context, vars: set<Symbol>)
    requires WellFormed(c)
  {
    forall id :: id in vars ==> Find(c, id).Some?
  }

  lemma InScopeGrows(c: Context, d: Context, vars: set<Symbol>)
    requires WellFormed(c) && Grows(c, d) && InScope(c, vars)
    ensures InScope(d, vars)
  {
    forall id | id in vars ensures Find(d, id).Some? { FindGrows(c, d, id); }
  }

  lemma InScopePush(c: Context, id: Symbol, reg: Byte, vars: set<Symbol>)
    requires WellFormed(c) && InScope(c, vars - {id})
    ensures InScope(Push(c, id, reg), vars)
  {
    forall s | s in vars ensures Find(Push(c, id, reg), s).Some? { FindPush(c, id, reg, s); }
  }

  /** `n` more registers are taken than before; exactly, if they are less than two. */
  predicate Takes(c: Context, d: Context, n: nat) {
    d.registers >= c.registers + n && (n < 2 ==> d.registers == c.registers + n)
  }

  lemma TakesTrans(c: Context, d: Context, e: Context, n: nat, k: nat)
    requires Takes(c, d, n) && Takes(d, e, k)
    ensures Takes(c, e, n + k)
  {
  }

  lemma PopTakes(c: Context, id: Symbol, reg: Byte, d: Context, n: nat)
    requires WellFormed(c) && Grows(Push(c, id, reg), d) && Takes(Push(c, id, reg), d, n)
    ensures d.top > 0 && Takes(c, Pop(d), n)
  {
  }

  lemma FewerInScope(c: Context, vars: set<Symbol>, fewer: set<Symbol>)
    requires WellFormed(c) && InScope(c, vars) && fewer <= vars
    ensures InScope(c, fewer)
  {
  }

  /** The code of an expression whose variables are in scope. */
  lemma {:induction false} CodeTakes(base: nat, c: Context, e: Expr)
    requires WellFormed(c) && c.version.AsWritten? && InScope(c, FreeVars(e)) && Gen(base, c, e).errors == 0
    ensures Takes(c, Gen(base, c, e).context, Room(e))
    decreases e, 2
  {
    hide EmitApply, EmitBinary, EmitUnary, EmitLet, EmitIf, EmitLambda, EmitLetRec, EmitTuple, EmitIdentifier, Takes,
         Grows;
    match e
    case Identifier(id) => IdentifierTakes(c, id);
    case Apply(f, a) => ApplyTakes(base, c, f, a);
    case Binary(op, l, r) => BinaryTakes(base, c, op, l, r);
    case Unary(op, a) => UnaryTakes(base, c, op, a);
    case Let(id, value, body) => LetTakes(base, c, id, value, body);
    case If(t, a, b) => IfTakes(base, c, t, a, b);
    case _ => OtherTakes(base, c, e);
  }

  lemma IdentifierTakes(c: Context, id: Symbol)
    requires WellFormed(c) && Find(c, id).Some?
    ensures Takes(c, EmitIdentifier(c, id).context, 0)
  {
    assert FindWritten(c, id).Some?;
  }

  lemma OtherTakes(base: nat, c: Context, e: Expr)
    requires WellFormed(c) && Gen(base, c, e).errors == 0
    requires !e.Identifier? && !e.Apply? && !e.Binary? && !e.Unary? && !e.Let? && !e.If?
    ensures Takes(c, Gen(base, c, e).context, Room(e))
  {
    hide Encode, EmitLambda, EmitLetRec, EmitTuple;
    match e
    case Lambda(param, body) => LambdaTakes(base, Allocate(c), INVALID_SYMBOL, param, body, NewRegister(c));
    case LetRec(id, value, body) => LetRecTakes(base, c, id, value, body);
    case Tuple(_, _, _) => TupleTakes(base, c, e);
    case _ =>
  }

  lemma LambdaTakes(base: nat, c: Context, self: Symbol, param: Symbol, body: Expr, target: Byte)
    requires WellFormed(c)
    ensures EmitLambda(base, c, self, param, body, target).context.registers >= c.registers + 1
  {
    hide Encode, EmitCaptures, Gen;
  }

  lemma LetRecTakes(base: nat, c: Context, id: Symbol, value: Expr, body: Expr)
    requires WellFormed(c) && EmitLetRec(base, c, id, value, body).errors == 0
    ensures EmitLetRec(base, c, id, value, body).context.registers >= c.registers + 2
  {
    hide Encode, EmitLambda, Gen;
    if value.Lambda? {
      LambdaTakes(base, Push(Allocate(c), id, NewRegister(c)), id, value.param, value.body, NewRegister(c));
    }
  }

  lemma TupleTakes(base: nat, c: Context, e: Expr)
    requires WellFormed(c) && e.Tuple?
    ensures EmitTuple(base, c, e).context.registers >= c.registers + 2
  {
    hide Encode, EmitMembers, Compiled;
  }

  lemma {:induction false} BothTake(base: nat, c: Context, l: Expr, r: Expr, whole: Expr)
    requires WellFormed(c) && c.version.AsWritten? && InScope(c, FreeVars(l) + FreeVars(r)) && l < whole && r < whole
    requires var x := Gen(base, c, l); x.errors == 0 && Gen(base + |x.funcs|, x.context, r).errors == 0
    ensures var x := Gen(base, c, l);
            Takes(c, Gen(base + |x.funcs|, x.context, r).context, Room(l) + Room(r))
    decreases whole, 0
  {
    hide *;
    var x := Gen(base, c, l);
    FewerInScope(c, FreeVars(l) + FreeVars(r), FreeVars(l));
    FewerInScope(c, FreeVars(l) + FreeVars(r), FreeVars(r));
    CodeTakes(base, c, l);
    GrowsVersion(c, x.context);
    InScopeGrows(c, x.context, FreeVars(r));
    CodeTakes(base + |x.funcs|, x.context, r);
    TakesTrans(c, x.context, Gen(base + |x.funcs|, x.context, r).context, Room(l), Room(r));
  }

  lemma {:induction false} ApplyTakes(base: nat, c: Context, f: Expr, a: Expr)
    requires WellFormed(c) && c.version.AsWritten? && InScope(c, FreeVars(Apply(f, a))) &&
             EmitApply(base, c, f, a).errors == 0
    ensures Takes(c, EmitApply(base, c, f, a).context, Room(Apply(f, a)))
    decreases Apply(f, a), 1
  {
    hide Gen, InScope, Encode;
    BothTake(base, c, f, a, Apply(f, a));
  }

  lemma {:induction false} BinaryTakes(base: nat, c: Context, op: BinaryOp, l: Expr, r: Expr)
    requires WellFormed(c) && c.version.AsWritten? && InScope(c, FreeVars(Binary(op, l, r)))
    requires EmitBinary(base, c, op, l, r).errors == 0
    ensures Takes(c, EmitBinary(base, c, op, l, r).context, Room(Binary(op, l, r)))
    decreases Binary(op, l, r), 1
  {
    hide Gen, InScope, Encode;
    BothTake(base, c, l, r, Binary(op, l, r));
  }

  lemma {:induction false} UnaryTakes(base: nat, c: Context, op: UnaryOp, a: Expr)
    requires WellFormed(c) && c.version.AsWritten? && InScope(c, FreeVars(Unary(op, a)))
    requires EmitUnary(base, c, op, a).errors == 0
    ensures Takes(c, EmitUnary(base, c, op, a).context, Room(Unary(op, a)))
    decreases Unary(op, a), 1
  {
    hide Gen, InScope, Encode;
    CodeTakes(base, c, a);
  }

  lemma {:induction false} LetTakes(base: nat, c: Context, id: Symbol, value: Expr, body: Expr)
    requires WellFormed(c) && c.version.AsWritten? && InScope(c, FreeVars(value) + (FreeVars(body) - {id}))
    requires EmitLet(base, c, id, value, body).errors == 0
    ensures Takes(c, EmitLet(base, c, id, value, body).context, Room(value) + Room(body))
    decreases Let(id, value, body), 1
  {
    hide *;
    var vars := FreeVars(value) + (FreeVars(body) - {id});
    var x := Gen(base, c, value);
    var d := Push(x.context, id, x.reg);
    var y := Gen(base + |x.funcs|, d, body);
    LetShape(base, c, id, value, body);
    FewerInScope(c, vars, FreeVars(value));
    FewerInScope(c, vars, FreeVars(body) - {id});
    CodeTakes(base, c, value);
    GrowsVersion(c, x.context);
    InScopeGrows(c, x.context, FreeVars(body) - {id});
    InScopePush(x.context, id, x.reg, FreeVars(body));
    PushSame(x.context, id, x.reg);
    CodeTakes(base + |x.funcs|, d, body);
    PopTakes(x.context, id, x.reg, y.context, Room(body));
    TakesTrans(c, x.context, Pop(y.context), Room(value), Room(body));
  }

  lemma {:induction false} IfTakes(base: nat, c: Context, t: Expr, a: Expr, b: Expr)
    requires WellFormed(c) && c.version.AsWritten? && InScope(c, FreeVars(t) + FreeVars(a) + FreeVars(b))
    requires EmitIf(base, c, t, a, b).errors == 0
    ensures Takes(c, EmitIf(base, c, t, a, b).context, Room(t) + Room(a) + Room(b))
    decreases If(t, a, b), 1
  {
    hide *;
    var vars := FreeVars(t) + FreeVars(a) + FreeVars(b);
    var x := Gen(base, c, t);
    var y := Gen(base + |x.funcs|, x.context, a);
    var z := Gen(base + |x.funcs| + |y.funcs|, y.context, b);
    IfShape(base, c, t, a, b);
    GrowsVersion(c, x.context);
    BranchesSame(x.context);
    FewerInScope(c, vars, FreeVars(t));
    FewerInScope(c, vars, FreeVars(a));
    FewerInScope(c, vars, FreeVars(b));
    CodeTakes(base, c, t);
    InScopeGrows(c, x.context, FreeVars(a));
    InScopeGrows(c, x.context, FreeVars(b));
    CodeTakes(base + |x.funcs|, x.context, a);
    GrowsVersion(x.context, y.context);
    InScopeGrows(x.context, y.context, FreeVars(b));
    CodeTakes(base + |x.funcs| + |y.funcs|, y.context, b);
    TakesTrans(c, x.context, y.context, Room(t), Room(a));
    TakesTrans(c, y.context, z.context, Room(t) + Room(a), Room(b));
  }

  lemma BranchesSame(c: Context)
    requires WellFormed(c) && c.version.AsWritten?
    ensures Branches(c) == c
  {
  }

  /** A closed program that is compiled without errors has a frame for a call exactly if `Framed`
      says so. */
  lemma FrameExact(v: Version, e: Expr)
    requires FreeVars(e) == {} && CompileErrors(v, e) == 0
    ensures Compile(v, e)[0].registerCount >= 2 <==> Framed(v, e)
  {
    hide Gen, FreeVars, Room;
    var c := EmptyContext(v);
    GrowsVersion(c, Gen(1, c, e).context);
    if v.AsWritten? { CodeTakes(1, c, e); }
  }
}
