/** Which programs the compiler turns away. */
module Rejections {
  import opened Wrappers
  import opened Syntax
  import opened Bytecode
  import opened Codegen

  /** There is no division and no unary plus, every `let rec` defines a function, and there is neither
      a stray end of a tuple nor an invalid node, in what a version of the compiler compiles: of a
      tuple, as written, only the first member. */
  predicate Compiles(v: Version, e: Expr) {
    match e
    case Lambda(_, body) => Compiles(v, body)
    case Apply(f, a) => Compiles(v, f) && Compiles(v, a)
    case Let(_, value, body) => Compiles(v, value) && Compiles(v, body)
    case LetRec(_, value, body) => value.Lambda? && Compiles(v, value.body) && Compiles(v, body)
    case If(t, a, b) => Compiles(v, t) && Compiles(v, a) && Compiles(v, b)
    case Binary(op, l, r) => op != Slash && Compiles(v, l) && Compiles(v, r)
    case Unary(op, a) => op == UnaryMinus && Compiles(v, a)
    case Tuple(first, _, n) =>
      if v.AsWritten? then n > 0 ==> Compiles(v, first) else forall m :: m in MembersOf(e, n) ==> Compiles(v, m)
    case TupleFinal(_) => false
    case Invalid => false
    case _ => true
  }

  /** In any context the compiler reports no error exactly if it compiles. */
  lemma {:induction false} CompilesExactly(base: nat, c: Context, e: Expr)
    requires WellFormed(c)
    ensures Gen(base, c, e).errors == 0 <==> Compiles(c.version, e)
    decreases e, 2
  {
    hide EmitLiteral, EmitIdentifier, EmitLambda, EmitApply, EmitLet, EmitLetRec, EmitIf, EmitBinary, EmitUnary,
         EmitTuple,
         Grows;
    match e
    case Literal(n) => LeafErrors(c, n, 0);
    case True => LeafErrors(c, 1, 0);
    case False => LeafErrors(c, 0, 0);
    case Identifier(id) => LeafErrors(c, 0, id);
    case Lambda(param, body) => LambdaErrors(base, Allocate(c), INVALID_SYMBOL, param, body, NewRegister(c));
    case Apply(f, a) => ApplyErrors(base, c, f, a);
    case Let(id, value, body) => LetErrors(base, c, id, value, body);
    case LetRec(id, value, body) => LetRecErrors(base, c, id, value, body);
    case If(t, a, b) => IfErrors(base, c, t, a, b);
    case Binary(op, l, r) => BinaryErrors(base, c, op, l, r);
    case Unary(op, a) => UnaryErrors(base, c, op, a);
    case Tuple(_, _, _) => TupleErrors(base, c, e);
    case _ =>
  }

  lemma LeafErrors(c: Context, n: nat, id: Symbol)
    requires WellFormed(c)
    ensures EmitLiteral(c, n).errors == 0 && EmitIdentifier(c, id).errors == 0
  {
    hide Encode, FindFrom, IndexOf;
  }

  lemma {:induction false} LambdaErrors(base: nat, c: Context, self: Symbol, param: Symbol, body: Expr, target: Byte)
    requires WellFormed(c)
    ensures EmitLambda(base, c, self, param, body, target).errors == 0 <==> Compiles(c.version, body)
    decreases body, 3
  {
    hide Gen, Encode, EmitCaptures, EmitLiteral, Compiles;
    CompilesExactly(base + 1, BodyContext(c.version, self, param), body);
  }

  lemma {:induction false} BothErrors(base: nat, c: Context, l: Expr, r: Expr, whole: Expr)
    requires WellFormed(c) && l < whole && r < whole
    ensures var x := Gen(base, c, l);
            x.errors + Gen(base + |x.funcs|, x.context, r).errors == 0
            <==> Compiles(c.version, l) && Compiles(c.version, r)
    decreases whole, 0
  {
    hide Gen, Compiles;
    var x := Gen(base, c, l);
    CompilesExactly(base, c, l);
    CompilesExactly(base + |x.funcs|, x.context, r);
  }

  lemma {:induction false} ApplyErrors(base: nat, c: Context, f: Expr, a: Expr)
    requires WellFormed(c)
    ensures EmitApply(base, c, f, a).errors == 0 <==> Compiles(c.version, f) && Compiles(c.version, a)
    decreases Apply(f, a), 1
  {
    hide Gen, Encode, Compiles;
    BothErrors(base, c, f, a, Apply(f, a));
  }

  lemma {:induction false} BinaryErrors(base: nat, c: Context, op: BinaryOp, l: Expr, r: Expr)
    requires WellFormed(c)
    ensures EmitBinary(base, c, op, l, r).errors == 0
            <==> op != Slash && Compiles(c.version, l) && Compiles(c.version, r)
    decreases Binary(op, l, r), 1
  {
    hide Gen, BinaryCode, Compiles;
    BothErrors(base, c, l, r, Binary(op, l, r));
  }

  lemma {:induction false} UnaryErrors(base: nat, c: Context, op: UnaryOp, a: Expr)
    requires WellFormed(c)
    ensures EmitUnary(base, c, op, a).errors == 0 <==> op == UnaryMinus && Compiles(c.version, a)
    decreases Unary(op, a), 1
  {
    hide Gen, Encode, Compiles;
    CompilesExactly(base, c, a);
  }

  lemma {:induction false} LetErrors(base: nat, c: Context, id: Symbol, value: Expr, body: Expr)
    requires WellFormed(c)
    ensures EmitLet(base, c, id, value, body).errors == 0 <==> Compiles(c.version, value) && Compiles(c.version, body)
    decreases Let(id, value, body), 1
  {
    hide Gen, Compiles;
    var x := Gen(base, c, value);
    CompilesExactly(base, c, value);
    PushSame(x.context, id, x.reg);
    CompilesExactly(base + |x.funcs|, Push(x.context, id, x.reg), body);
  }

  lemma {:induction false} LetRecErrors(base: nat, c: Context, id: Symbol, value: Expr, body: Expr)
    requires WellFormed(c)
    ensures EmitLetRec(base, c, id, value, body).errors == 0
            <==> value.Lambda? && Compiles(c.version, value.body) && Compiles(c.version, body)
    decreases LetRec(id, value, body), 1
  {
    hide Gen, EmitLambda, Compiles;
    if value.Lambda? {
      var target := NewRegister(c);
      var d := Push(Allocate(c), id, target);
      var x := EmitLambda(base, d, id, value.param, value.body, target);
      PushSame(Allocate(c), id, target);
      LambdaErrors(base, d, id, value.param, value.body, target);
      CompilesExactly(base + |x.funcs|, x.context, body);
    }
  }

  lemma {:induction false} IfErrors(base: nat, c: Context, t: Expr, a: Expr, b: Expr)
    requires WellFormed(c)
    ensures EmitIf(base, c, t, a, b).errors == 0
            <==> Compiles(c.version, t) && Compiles(c.version, a) && Compiles(c.version, b)
    decreases If(t, a, b), 1
  {
    hide Gen, IfCode, MoveCode, Compiles;
    var x := Gen(base, c, t);
    var y := Gen(base + |x.funcs|, Branches(x.context), a);
    CompilesExactly(base, c, t);
    CompilesExactly(base + |x.funcs|, Branches(x.context), a);
    CompilesExactly(base + |x.funcs| + |y.funcs|, y.context, b);
  }

  lemma {:induction false} MembersErrors(base: nat, c: Context, target: Byte, ms: seq<Expr>, i: nat, whole: Expr)
    requires WellFormed(c) && i <= |ms| && forall m :: m in ms ==> m < whole
    ensures EmitMembers(base, c, target, ms, i, whole).errors == 0
            <==> forall k :: i <= k < |ms| ==> Compiles(c.version, ms[k])
    decreases whole, 0, |ms| - i
  {
    hide Gen, Encode, Compiles;
    if i < |ms| {
      assert ms[i] in ms;
      var v := Gen(base, c, ms[i]);
      CompilesExactly(base, c, ms[i]);
      MembersErrors(base + |v.funcs|, v.context, target, ms, i + 1, whole);
    }
  }

  lemma {:induction false} TupleErrors(base: nat, c: Context, e: Expr)
    requires WellFormed(c) && e.Tuple?
    ensures EmitTuple(base, c, e).errors == 0 <==> Compiles(c.version, e)
    decreases e, 1
  {
    var ms := Compiled(c.version, e);
    MembersCompile(c.version, e);
    hide EmitMembers, Compiled, Encode, EmitLiteral, Compiles;
    var len := EmitLiteral(c, e.length);
    LeafErrors(c, e.length, 0);
    LiteralSame(c, e.length);
    MembersErrors(base, Allocate(len.context), NewRegister(len.context), ms, 0, e);
  }

  lemma LiteralSame(c: Context, n: nat)
    requires WellFormed(c)
    ensures EmitLiteral(c, n).context == Allocate(c)
  {
  }

  lemma MembersCompile(v: Version, e: Expr)
    requires e.Tuple?
    ensures Compiles(v, e) <==> forall k :: 0 <= k < |Compiled(v, e)| ==> Compiles(v, Compiled(v, e)[k])
  {
    var ms := Compiled(v, e);
    if v.AsWritten? {
      if e.length > 0 { assert ms[0] == e.first; }
    } else {
      assert forall m :: m in ms <==> exists k :: 0 <= k < |ms| && ms[k] == m;
    }
  }

  /** A program is compiled without errors exactly if it compiles. */
  lemma ProgramCompiles(v: Version, e: Expr)
    ensures CompileErrors(v, e) == 0 <==> Compiles(v, e)
  {
    hide Gen, Compiles;
    CompilesExactly(1, EmptyContext(v), e);
  }
}
