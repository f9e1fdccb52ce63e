/** Concrete programs that the compiler, as it is written, gets wrong: for each of its departures the
    smallest family of literals. Modules Frames and Departures say it for all. */
module Counterexamples {
  import opened Wrappers
  import opened Syntax
  import opened Semantics
  import opened Bytecode
  import M = Machine
  import opened Codegen
  import opened Safety
  import opened Representation
  import opened Simulation
  import opened Frames
  import opened Preservation
  import opened PlainPrograms
  import opened Departures

  // ----- A binding that has been popped -----

  /** let y = a in (let y = b in y) + y */
  function ShadowingLiterals(y: Symbol, a: U64, b: U64): Expr {
    Let(y, Literal(a), Binary(Plus, Let(y, Literal(b), Identifier(y)), Identifier(y)))
  }

  lemma ShadowingShape(y: Symbol, a: U64, b: U64)
    ensures var e := ShadowingLiterals(y, a, b);
            var m := Compile(AsWritten, e);
            CompileErrors(AsWritten, e) == 0 && Fits(m) && m[0].registerCount == 3
  {
    hide Encode, Safe;
    var e, inner := EmptyContext(AsWritten), Let(y, Literal(b), Identifier(y));
    var c := Push(Allocate(e), y, 0);
    var d := Push(Allocate(c), y, 1);
    ShadowingScope(y, b);
    var x := EmitLet(1, c, y, Literal(b), Identifier(y));
    assert Gen(1, c, inner) == x == Emit(Pop(d), Encode(LoadImmediate(b, 1)) + [], 1, [], 0);
    assert Gen(1, x.context, Identifier(y)) == Emit(Pop(d), [], 1, [], 0);
    var z := EmitBinary(1, c, Plus, inner, Identifier(y));
    assert Gen(1, c, Binary(Plus, inner, Identifier(y))) == z;
    assert z.context == Allocate(Pop(d)) && z.funcs == [] && z.errors == 0;
    ImmediateSize(b, 1);
    OtherSizes();
    LiteralThen(y, a, Binary(Plus, inner, Identifier(y)));
  }

  /** let id = n in body */
  lemma LiteralThen(id: Symbol, n: U64, body: Expr)
    requires var z := Gen(1, Push(Allocate(EmptyContext(AsWritten)), id, 0), body);
             && z.errors == 0 && z.funcs == [] && |z.code| <= 100 && z.context.closure == []
             && z.context.registers == 3
    ensures var e := Let(id, Literal(n), body);
            var m := Compile(AsWritten, e);
            CompileErrors(AsWritten, e) == 0 && Fits(m) && m[0].registerCount == 3
  {
    var c := EmptyContext(AsWritten);
    LiteralIsSafe(id, n);
    hide Encode, Safe;
    assert Gen(1, c, Literal(n)) == Emit(Allocate(c), Encode(LoadImmediate(n, 0)), 0, [], 0);
    ImmediateSize(n, 0);
    OtherSizes();
    LetShape(1, c, id, Literal(n), body);
    assert Gen(1, c, Let(id, Literal(n), body)) == EmitLet(1, c, id, Literal(n), body);
  }

  lemma ShadowingCloses(y: Symbol, a: U64, b: U64)
    ensures FreeVars(ShadowingLiterals(y, a, b)) == {}
  {
    var inner := Let(y, Literal(b), Identifier(y));
    assert FreeVars(inner) == {} && FreeVars(Binary(Plus, inner, Identifier(y))) == {y};
  }

  lemma ShadowingScope(y: Symbol, b: U64)
    ensures var c := Push(Allocate(EmptyContext(AsWritten)), y, 0);
            var d := Push(Allocate(c), y, 1);
            && d == Context(2, [Binding(y, 0), Binding(y, 1)], 2, [], AsWritten) && Seen(d) == d
            && Gen(1, d, Identifier(y)) == Emit(d, [], 1, [], 0)
            && Gen(1, c, Literal(b)) == Emit(Allocate(c), Encode(LoadImmediate(b, 1)), 1, [], 0)
            && Safe(1, c, Literal(b)) && Safe(1, d, Identifier(y))
            && Overwrites(1, c, Literal(b)) == {} && Overwrites(1, d, Identifier(y)) == {}
  {
    hide Encode;
    var d := Context(2, [Binding(y, 0), Binding(y, 1)], 2, [], AsWritten);
    assert FindFrom(d.bindings, 1, y) == Some(1);
  }

  lemma ShadowingIsOnly(y: Symbol, b: U64)
    ensures ShadowingOnly(1, Push(Allocate(EmptyContext(AsWritten)), y, 0), Plus, y, Literal(b), Identifier(y),
                          Identifier(y))
  {
    ShadowingScope(y, b);
    hide Safe, Overwrites, Gen, Encode;
  }

  lemma ShadowingLiteralsValue(y: Symbol, a: U64, b: U64)
    ensures Eval(ShadowingLiterals(y, a, b), Empty, 0) == Val(Sum(b, a))
    ensures var env := Bind(y, IntV(a), Empty);
            && Eval(Literal(a), Empty, 0) == Val(IntV(a)) && Eval(Literal(b), env, 0) == Val(IntV(b))
            && Eval(Identifier(y), Bind(y, IntV(b), env), 0) == Val(IntV(b))
            && BinaryValue(Plus, IntV(b), IntV(b)) == Val(Sum(b, b))
  {
    var env := Bind(y, IntV(a), Empty);
    assert Eval(Let(y, Literal(b), Identifier(y)), env, 0) == Val(IntV(b));
    assert Eval(Identifier(y), env, 0) == Val(IntV(a));
  }

  function Sum(a: U64, b: U64): Value { IntV((a + b) % WORD) }

  lemma SameSum(a: U64, b: U64)
    ensures Sum(b, a) == Sum(b, b) <==> a == b
  {
  }

  /** The second `y` is compiled to the inner one: the sum is right only if both are the same. */
  lemma ShadowingLiteralsExact(y: Symbol, a: U64, b: U64)
    ensures var e := ShadowingLiterals(y, a, b);
            && Eval(e, Empty, 0) == Val(Sum(b, a))
            && (Computes(Compile(AsWritten, e), Sum(b, a)) <==> a == b)
  {
    hide *;
    ShadowingShape(y, a, b);
    ShadowingCloses(y, a, b);
    ShadowingIsOnly(y, b);
    ShadowingLiteralsValue(y, a, b);
    LiteralIsSafe(y, a);
    ShadowingLiteralsIs(y, a, b);
    ShadowingExact(y, Literal(a), Plus, y, Literal(b), Identifier(y), Identifier(y), 0,
                   IntV(a), IntV(b), IntV(b), IntV(b), Sum(b, b), Sum(b, a));
    SameSum(a, b);
  }

  lemma ShadowingLiteralsIs(y: Symbol, a: U64, b: U64)
    ensures ShadowingLiterals(y, a, b)
            == Let(y, Literal(a), Shadowing(Plus, y, Literal(b), Identifier(y), Identifier(y)))
  {
  }

  lemma LiteralIsSafe(y: Symbol, a: U64)
    ensures var c := EmptyContext(AsWritten);
            var p := Gen(1, c, Literal(a));
            Safe(1, c, Literal(a)) && Push(p.context, y, p.reg) == Push(Allocate(c), y, 0) && p.funcs == []
  {
    hide Encode;
  }

  lemma ImmediateSize(value: nat, dst: Byte)
    ensures |Encode(LoadImmediate(value, dst))| <= 10
  {
  }

  lemma OtherSizes()
    ensures |Encode(Ret)| == 1 && |Encode(Arithmetic(Add, 1, 1, 2))| == 4
  {
  }

  // ----- A then-branch that is a variable -----

  function Test(t: bool): Expr {
    if t then True else False
  }

  /** let x = a in let y = (if t then x else b) in x */
  function ChoosingLiterals(x: Symbol, y: Symbol, a: U64, t: bool, b: U64): Expr {
    Let(x, Literal(a), Let(y, If(Test(t), Identifier(x), Literal(b)), Identifier(x)))
  }

  /** The inner `if` is itself compiled safely; its result register is that of `x`. */
  lemma ChoosingIf(c: Context, x: Symbol, t: bool, b: U64)
    requires c == Context(1, [Binding(x, 0)], 1, [], AsWritten)
    ensures var e := If(Test(t), Identifier(x), Literal(b));
            var z := Gen(1, c, e);
            && z.context == c.(registers := 3) && z.reg == 0 && z.funcs == [] && z.errors == 0 && |z.code| <= 30
            && Safe(1, c, e)
  {
    hide Encode, FindFrom;
    var q := Test(t);
    var d := c.(registers := 2);
    assert FindFrom(c.bindings, 0, x) == Some(0) by { FindOnly(x); }
    var value := if t then 1 else 0;
    assert Gen(1, c, q) == Emit(d, Encode(LoadImmediate(value, 1)), 1, [], 0);
    assert Gen(1, d, Identifier(x)) == Emit(d, [], 0, [], 0);
    assert Gen(1, d, Literal(b)) == Emit(c.(registers := 3), Encode(LoadImmediate(b, 2)), 2, [], 0);
    ImmediateSize(value, 1);
    ImmediateSize(b, 2);
    IfSize(1, 0, 2);
    assert Overwrites(1, c, q) == {};
    assert Safe(1, c, q) && Safe(1, d, Identifier(x)) && Safe(1, d, Literal(b));
    assert SafeIf(1, c, q, Identifier(x), Literal(b));
  }

  lemma FindOnly(x: Symbol)
    ensures FindFrom([Binding(x, 0)], 0, x) == Some(0 as Byte)
  {
  }

  lemma IfSize(test: Byte, to: Byte, from: Byte)
    ensures |Encode(JumpIfZero(test, 3))| == 4 && |MoveCode(from, to)| <= 3
    ensures forall n: nat :: |Encode(Jump(n))| == 3
  {
  }

  lemma ChoosingShape(x: Symbol, y: Symbol, a: U64, t: bool, b: U64)
    requires x != y
    ensures var e := ChoosingLiterals(x, y, a, t, b);
            var m := Compile(AsWritten, e);
            CompileErrors(AsWritten, e) == 0 && Fits(m) && m[0].registerCount == 3
  {
    hide Encode, Safe, Gen, EmitLet, Fits;
    var q := If(Test(t), Identifier(x), Literal(b));
    var c := Context(1, [Binding(x, 0)], 1, [], AsWritten);
    ChoosingIf(c, x, t, b);
    ChoosingScope(x, y);
    LetShape(1, c, y, q, Identifier(x));
    GenLet(1, c, y, q, Identifier(x));
    assert Gen(1, c, q).code + [] == Gen(1, c, q).code;
    assert Push(Allocate(EmptyContext(AsWritten)), x, 0) == c;
    LiteralThen(x, a, Let(y, q, Identifier(x)));
  }

  lemma ChoosingCloses(x: Symbol, y: Symbol, a: U64, t: bool, b: U64)
    requires x != y
    ensures FreeVars(ChoosingLiterals(x, y, a, t, b)) == {}
  {
    var q := If(Test(t), Identifier(x), Literal(b));
    assert FreeVars(Test(t)) == {} && FreeVars(q) == {x} && FreeVars(Let(y, q, Identifier(x))) == {x};
  }

  lemma ChoosingScope(x: Symbol, y: Symbol)
    requires x != y
    ensures var d := Context(3, [Binding(x, 0), Binding(y, 0)], 2, [], AsWritten);
            && Push(Context(3, [Binding(x, 0)], 1, [], AsWritten), y, 0) == d
            && Gen(1, d, Identifier(x)) == Emit(d, [], 0, [], 0) && Safe(1, d, Identifier(x))
  {
    var d := Context(3, [Binding(x, 0), Binding(y, 0)], 2, [], AsWritten);
    assert FindFrom(d.bindings, 1, x) == FindFrom(d.bindings, 0, x) == Some(0);
  }

  lemma ChoosingIsOnly(x: Symbol, y: Symbol, a: U64, t: bool, b: U64)
    requires x != y
    ensures ChoosingOnly(1, EmptyContext(AsWritten), x, Literal(a), y, Test(t), Literal(b), Identifier(x))
  {
    hide Encode;
    var q := If(Test(t), Identifier(x), Literal(b));
    var c := Context(1, [Binding(x, 0)], 1, [], AsWritten);
    LiteralIsSafe(x, a);
    ChoosingIf(c, x, t, b);
    ChoosingScope(x, y);
    assert Overwrites(1, EmptyContext(AsWritten), Literal(a)) == {};
    assert Push(Allocate(EmptyContext(AsWritten)), x, 0) == c && NewRegister(EmptyContext(AsWritten)) == 0;
    hide Safe, Overwrites, Gen, FreeVars;
    assert FreeVars(Identifier(x)) == {x} by { ReadsItself(x); }
  }

  lemma ReadsItself(x: Symbol)
    ensures FreeVars(Identifier(x)) == {x}
  {
  }

  /** Taking the else branch overwrites `x`: the program is right only when the branch is not
      taken, or would not change the value. */
  lemma ChoosingLiteralsExact(x: Symbol, y: Symbol, a: U64, t: bool, b: U64)
    requires x != y
    ensures var e := ChoosingLiterals(x, y, a, t, b);
            && Eval(e, Empty, 0) == Val(IntV(a))
            && (Computes(Compile(AsWritten, e), IntV(a)) <==> t || a == b)
  {
    hide *;
    var u := IntV(if t then a else b);
    ChoosingShape(x, y, a, t, b);
    ChoosingCloses(x, y, a, t, b);
    ChoosingIsOnly(x, y, a, t, b);
    ChoosingLiteralsValue(x, y, a, t, b);
    ChoosingLiteralsIs(x, y, a, t, b);
    ChoosingExact(x, Literal(a), y, Test(t), Literal(b), Identifier(x), 0, IntV(a), u, u, IntV(a));
    NumberWords(a, if t then a else b);
  }

  lemma ChoosingLiteralsIs(x: Symbol, y: Symbol, a: U64, t: bool, b: U64)
    ensures ChoosingLiterals(x, y, a, t, b) == Choosing(x, Literal(a), y, Test(t), Literal(b), Identifier(x))
  {
  }

  lemma NumberWords(a: U64, b: U64)
    ensures Datum(IntV(a)) && Datum(IntV(b)) && (WordOf(IntV(a)) == WordOf(IntV(b)) <==> a == b)
  {
  }

  lemma ChoosingLiteralsValue(x: Symbol, y: Symbol, a: U64, t: bool, b: U64)
    requires x != y
    ensures Eval(ChoosingLiterals(x, y, a, t, b), Empty, 0) == Val(IntV(a))
    ensures var u, env := IntV(if t then a else b), Bind(x, IntV(a), Empty);
            && Eval(Literal(a), Empty, 0) == Val(IntV(a))
            && Eval(If(Test(t), Identifier(x), Literal(b)), env, 0) == Val(u)
            && Eval(Identifier(x), Bind(y, u, Bind(x, u, Empty)), 0) == Val(u)
  {
    var u, env := IntV(if t then a else b), Bind(x, IntV(a), Empty);
    assert Eval(Identifier(x), env, 0) == Val(IntV(a));
    assert Eval(Test(t), env, 0) == Val(BoolV(t));
    assert Lookup(Bind(x, u, Empty), x) == Some(u);
    assert Eval(Identifier(x), Bind(y, u, env), 0) == Val(IntV(a));
    assert Eval(If(Test(t), Identifier(x), Literal(b)), env, 0) == Val(u);
    assert Eval(Let(y, If(Test(t), Identifier(x), Literal(b)), Identifier(x)), env, 0) == Val(IntV(a));
    assert Lookup(Bind(y, u, Bind(x, u, Empty)), x) == Some(u);
  }

  // ----- Tuples -----

  /** (a, b) is compiled as (a, a). */
  lemma PairExact(a: U64, b: U64)
    ensures var e := Tuple(Literal(a), TupleFinal(Literal(b)), 2);
            && Eval(e, Empty, 0) == Val(TupleV([IntV(a), IntV(b)]))
            && (Computes(Compile(AsWritten, e), TupleV([IntV(a), IntV(b)])) <==> a == b)
  {
    var e := Tuple(Literal(a), TupleFinal(Literal(b)), 2);
    assert EvalMembers(e.rest, Empty, 0) == Vals([IntV(b)]);
    assert [IntV(a)] + [IntV(b)] == [IntV(a), IntV(b)];
    assert EvalMembers(e, Empty, 0) == Vals([IntV(a), IntV(b)]);
    PairMembers(a, b);
    PairCode(a, b);
    PairCopied(a, b);
    hide *;
    var k, w, h := TupleExact(e, 0);
    PairWords(a, b);
  }

  lemma PairMembers(a: U64, b: U64)
    ensures var e := Tuple(Literal(a), TupleFinal(Literal(b)), 2);
            && Compiled(AsWritten, e) == [Literal(a), Literal(a)] && Chain(e, 2) && FreeVars(e) == {}
  {
    assert Chain(TupleFinal(Literal(b)), 1) && FreeVars(TupleFinal(Literal(b))) == {};
  }

  lemma PairCode(a: U64, b: U64)
    ensures var e := Tuple(Literal(a), TupleFinal(Literal(b)), 2);
            var m := Compile(AsWritten, e);
            CompileErrors(AsWritten, e) == 0 && Fits(m) && m[0].registerCount >= 2
  {
    hide LittleEndian;
    var e := Tuple(Literal(a), TupleFinal(Literal(b)), 2);
    var ms, c, d := [Literal(a), Literal(a)], EmptyContext(AsWritten), Allocate(Allocate(EmptyContext(AsWritten)));
    PairMembers(a, b);
    assert Compiled(AsWritten, e) == ms;
    var v := EmitLiteral(d, a);
    assert Gen(1, d, ms[0]) == v && Gen(1, v.context, ms[1]) == EmitLiteral(v.context, a);
    var r2 := EmitMembers(1, EmitLiteral(v.context, a).context, 1, ms, 2, e);
    var r1 := EmitMembers(1, v.context, 1, ms, 1, e);
    var r0 := EmitMembers(1, d, 1, ms, 0, e);
    assert r2 == Emit(EmitLiteral(v.context, a).context, [], 1, [], 0);
    assert |r1.code| <= 15 && |r0.code| <= 30 && r0.funcs == [] && r0.errors == 0 && r0.context.registers == 4 &&
           r0.context.closure == [];
    assert EmitTuple(1, c, e).code == EmitLiteral(c, 2).code + Encode(NewTuple(0, 1)) + r0.code;
    assert |EmitTuple(1, c, e).code| <= 43;
  }

  lemma PairCopied(a: U64, b: U64)
    ensures CopiedOnly(1, EmptyContext(AsWritten), Tuple(Literal(a), TupleFinal(Literal(b)), 2))
  {
    hide Encode;
    var e := Tuple(Literal(a), TupleFinal(Literal(b)), 2);
    var ms, d := [Literal(a), Literal(a)], Allocate(Allocate(EmptyContext(AsWritten)));
    PairMembers(a, b);
    var v := EmitLiteral(d, a);
    assert Gen(1, d, ms[0]) == v;
    assert SafeMembers(1, EmitLiteral(v.context, a).context, 1, ms, 2, e);
    assert SafeMembers(1, v.context, 1, ms, 1, e);
    assert SafeMembers(1, d, 1, ms, 0, e);
  }

  lemma PairWords(a: U64, b: U64)
    ensures var vs := [IntV(a), IntV(b)];
            (forall i :: 0 <= i < |vs| ==> Datum(vs[i]))
            && ((forall i :: 0 <= i < |vs| ==> WordOf(vs[i]) == WordOf(vs[0])) <==> a == b)
  {
    var vs := [IntV(a), IntV(b)];
    assert vs[0] == IntV(a) && vs[1] == IntV(b);
    assert WordOf(vs[1]) == b && WordOf(vs[0]) == a;
  }

  // ----- A frame without the registers of a call -----

  /** A program that is one literal faults, whatever it is allowed; as meant it is computed. */
  lemma ConstantFaults(n: U64, fuel: nat)
    ensures var m := Compile(AsWritten, Literal(n));
            && CompileErrors(AsWritten, Literal(n)) == 0 && Fits(m)
            && Execute(m, fuel) == M.Fault && M.Evaluate(m, 0, M.Num(0), M.Num(0), [], fuel) == M.Fault
    ensures Computes(Compile(AsMeant, Literal(n)), IntV(n))
  {
    ConstantShape(AsWritten, n);
    ConstantShape(AsMeant, n);
    hide *;
    ConstantRoom(n);
    UnframedFaults(AsWritten, Literal(n), fuel);
    MeantIsCompilable(Literal(n));
    PreservesSemantics(AsMeant, Literal(n), 0);
  }

  lemma ConstantRoom(n: U64)
    ensures !Framed(AsWritten, Literal(n)) && Framed(AsMeant, Literal(n)) && Eval(Literal(n), Empty, 0) == Val(IntV(n))
  {
  }

  lemma ConstantShape(v: Version, n: U64)
    ensures var e := Literal(n);
            FreeVars(e) == {} && Supported(e) && CompileErrors(v, e) == 0 && Fits(Compile(v, e))
  {
    hide Encode;
    ImmediateSize(n, 0);
    OtherSizes();
  }
}
