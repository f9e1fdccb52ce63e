/** Where the compiler, as it is written, departs from the language. For each of the three events
    that `Safe` excludes: what the code computes instead, for arbitrary parts and in any context,
    and so exactly when a program is still compiled right. */
module Departures {
  import opened Wrappers
  import opened Syntax
  import opened Semantics
  import opened Bytecode
  import M = Machine
  import opened Codegen
  import opened Safety
  import opened ClosureConversion
  import opened Representation
  import opened Simulation
  import opened Preservation
  import opened PlainPrograms

  // ----- Numbers and truth values -----

  predicate Datum(v: Value) { v.IntV? || v.BoolV? }

  function WordOf(v: Value): nat
    requires Datum(v)
  {
    match v case IntV(n) => n case BoolV(b) => if b then 1 else 0
  }

  lemma DatumRep(m: Module, h: Heap, u: Value, v: Value, w: Word)
    requires Datum(u) && Datum(v) && Rep(m, h, u, w)
    ensures Rep(m, h, v, w) <==> WordOf(v) == WordOf(u)
  {
  }

  /** A module that computes one number or truth value computes another exactly if they are the
      same word. */
  lemma DatumComputed(m: Module, u: Value, v: Value)
    requires Computes(m, u) && Datum(u) && Datum(v)
    ensures Computes(m, v) <==> WordOf(v) == WordOf(u)
  {
    hide Rep, M.Enter, M.Run;
    var k, w, h :| ComputesIn(m, u, k, w, h);
    DatumRep(m, h, u, v, w);
    if WordOf(v) == WordOf(u) { assert ComputesIn(m, v, k, w, h); }
    if Computes(m, v) {
      assert Execute(m, k) == M.Done(w, h, 0);
      ComputedWord(m, v, k);
    }
  }

  // ----- A then-branch that is a variable -----

  /** let x = a in let y = (if t then x else b) in body */
  function Choosing(x: Symbol, a: Expr, y: Symbol, t: Expr, b: Expr, body: Expr): Expr {
    Let(x, a, Let(y, If(t, Identifier(x), b), body))
  }

  /** Nothing is wrong with it but that the else branch is copied to the register of `x`, in which
      no other variable lives that the body uses. */
  predicate ChoosingOnly(base: nat, c: Context, x: Symbol, a: Expr, y: Symbol, t: Expr, b: Expr, body: Expr)
    requires WellFormed(c)
  {
    var q := If(t, Identifier(x), b);
    var p := Gen(base, c, a);
    var d := Push(p.context, x, p.reg);
    var z := Gen(base + |p.funcs|, d, q);
    && Safe(base, c, a) && Safe(base + |p.funcs|, d, q)
    && Safe(base + |p.funcs| + |z.funcs|, Push(z.context, y, z.reg), body)
    && Apart(c, FreeVars(Let(y, q, body)) - {x}, Overwrites(base, c, a))
    && Apart(d, FreeVars(body) - {y} - {x}, Overwrites(base + |p.funcs|, d, q))
  }

  lemma ChoosingParts(base: nat, c: Context, x: Symbol, a: Expr, y: Symbol, t: Expr, b: Expr, body: Expr)
    requires WellFormed(c) && ChoosingOnly(base, c, x, a, y, t, b, body)
    ensures var q := If(t, Identifier(x), b);
            var p := Gen(base, c, a);
            var d := Push(p.context, x, p.reg);
            var z := Gen(base + |p.funcs|, d, q);
            && Safe(base, c, a) && Safe(base + |p.funcs|, d, q)
            && Safe(base + |p.funcs| + |z.funcs|, Push(z.context, y, z.reg), body)
            && Apart(c, FreeVars(Let(y, q, body)) - {x}, Overwrites(base, c, a))
            && Apart(d, FreeVars(body) - {y} - {x}, Overwrites(base + |p.funcs|, d, q))
  {
    hide Gen, Safe, Overwrites, Apart, FreeVars;
  }

  /** The result register of the `if` is that of the variable. */
  lemma ChoosingRegister(base: nat, c: Context, x: Symbol, reg: Byte, t: Expr, b: Expr)
    requires WellFormed(c) && c.version.AsWritten? && Safe(base, Push(c, x, reg), If(t, Identifier(x), b))
    ensures Gen(base, Push(c, x, reg), If(t, Identifier(x), b)).reg == reg
    ensures Find(Gen(base, Push(c, x, reg), If(t, Identifier(x), b)).context, x) == Some(reg)
  {
    hide FindFrom, FindWritten, IfCode, Overwrites, Apart, MoveCode;
    var d := Push(c, x, reg);
    var q := If(t, Identifier(x), b);
    FindPush(c, x, reg, x);
    var test := Gen(base, d, t);
    SafeIfParts(base, d, t, Identifier(x), b);
    FindGrows(d, test.context, x);
    assert Fresh(test.context, x);
    FindGrows(d, Gen(base, d, q).context, x);
  }

  /** A variable may be taken to have the value that its register holds. */
  lemma Rebound(m: Module, f: nat, c: Context, vars: set<Symbol>, x: Symbol, v: Value, u: Value, env: Env, s: State,
                reg: Byte)
    requires Ready(m, f, c, vars - {x}, Bind(x, v, env), s) && Find(c, x) == Some(reg)
    requires reg < |s.regs| && Rep(m, s.heap, u, s.regs[reg])
    ensures Ready(m, f, c, vars, Bind(x, u, env), s)
  {
    hide Rep;
    forall id | id in vars ensures Bound(m, m[f].closure, c, Bind(x, u, env), id, s) {
      if id != x { assert Bound(m, m[f].closure, c, Bind(x, v, env), id, s); }
    }
  }

  lemma LetPlaced(m: Module, f: nat, base: nat, c: Context, id: Symbol, value: Expr, body: Expr, ip: int)
    requires WellFormed(c) && Placed(m, f, base, Gen(base, c, Let(id, value, body)), ip)
    ensures var x := Gen(base, c, value);
            var y := Gen(base + |x.funcs|, Push(x.context, id, x.reg), body);
            var r := Gen(base, c, Let(id, value, body));
            && Placed(m, f, base, x, ip) && Placed(m, f, base + |x.funcs|, y, ip + |x.code|)
            && |r.code| == |x.code| + |y.code| && r.reg == y.reg && c.registers <= x.context.registers
  {
    hide *;
    var x := Gen(base, c, value);
    var y := Gen(base + |x.funcs|, Push(x.context, id, x.reg), body);
    var r := Gen(base, c, Let(id, value, body));
    GenLet(base, c, id, value, body);
    LetShape(base, c, id, value, body);
    GrowsVersion(c, x.context);
    BodyGrows(x.context, id, x.reg, y.context);
    assert r.code == x.code + y.code + [];
    PlacedTwo(m, f, base, x, y, r, [], ip);
  }

  lemma BodyGrows(c: Context, id: Symbol, reg: Byte, d: Context)
    requires WellFormed(c) && Grows(Push(c, id, reg), d)
    ensures d.top > 0 && c.registers <= d.registers == Pop(d).registers && c.closure <= d.closure == Pop(d).closure
  {
  }

  lemma GenLet(base: nat, c: Context, id: Symbol, value: Expr, body: Expr)
    requires WellFormed(c)
    ensures Gen(base, c, Let(id, value, body)) == EmitLet(base, c, id, value, body)
  {
    hide EmitLet;
  }

  /** `let x = a`, ready for what follows. */
  lemma Defined(m: Module, f: nat, base: nat, c: Context, x: Symbol, a: Expr, vars: set<Symbol>, env: Env, fuel: nat,
                s: State)
    returns (k: nat, t: State)
    requires Fits(m) && WellFormed(c) && Ready(m, f, c, FreeVars(a) + (vars - {x}), env, s) && Safe(base, c, a)
    requires Placed(m, f, base, Gen(base, c, a), s.ip) && Eval(a, env, fuel).Val?
    requires Apart(c, vars - {x}, Overwrites(base, c, a))
    ensures var p := Gen(base, c, a);
            && Ran(m, f, c.registers, Overwrites(base, c, a), |p.code|, p.reg, Eval(a, env, fuel).v, s, k, t)
            && Ready(m, f, Push(p.context, x, p.reg), vars, Bind(x, Eval(a, env, fuel).v, env), t)
            && t.ip == s.ip + |p.code|
  {
    hide *;
    var p, v, over := Gen(base, c, a), Eval(a, env, fuel).v, Overwrites(base, c, a);
    ReadyFewer(m, f, c, FreeVars(a) + (vars - {x}), FreeVars(a), env, s);
    ReadyFewer(m, f, c, FreeVars(a) + (vars - {x}), vars - {x}, env, s);
    ReadyScoped(m, f, c, FreeVars(a), env, s);
    k, t := Simulate(m, f, base, c, a, env, fuel, s);
    RanParts(m, f, c.registers, over, |p.code|, p.reg, v, s, k, t);
    ReadyKeeps(m, f, c, p.context, vars - {x}, env, s, t, over);
    ResultTaken(base, c, a);
    ReadyPush(m, f, p.context, vars, env, t, x, p.reg, v);
  }

  lemma ChoosingVars(x: Symbol, a: Expr, y: Symbol, t: Expr, b: Expr, body: Expr)
    ensures FreeVars(Choosing(x, a, y, t, b, body)) == FreeVars(a)
            + (FreeVars(Let(y, If(t, Identifier(x), b), body)) - {x})
    ensures FreeVars(Let(y, If(t, Identifier(x), b), body)) == FreeVars(If(t, Identifier(x), b))
            + (FreeVars(body) - {y})
  {
  }

  /** In any context the machine goes on with the branch's value for both variables. */
  lemma ChoosingRuns(m: Module, f: nat, base: nat, c: Context, x: Symbol, a: Expr, y: Symbol, t: Expr, b: Expr,
                     body: Expr, env: Env, fuel: nat, s: State, va: Value, u: Value, v: Value)
    returns (k: nat, over: set<Byte>, t': State)
    requires Fits(m) && WellFormed(c) && c.version.AsWritten? && ChoosingOnly(base, c, x, a, y, t, b, body)
    requires Ready(m, f, c, FreeVars(Choosing(x, a, y, t, b, body)), env, s)
    requires Placed(m, f, base, Gen(base, c, Choosing(x, a, y, t, b, body)), s.ip)
    requires Eval(a, env, fuel) == Val(va) && Eval(If(t, Identifier(x), b), Bind(x, va, env), fuel) == Val(u)
    requires Eval(body, Bind(y, u, Bind(x, u, env)), fuel) == Val(v)
    ensures var r := Gen(base, c, Choosing(x, a, y, t, b, body));
            Ran(m, f, c.registers, over, |r.code|, r.reg, v, s, k, t')
  {
    hide *;
    var q := If(t, Identifier(x), b);
    var p := Gen(base, c, a);
    var d := Push(p.context, x, p.reg);
    var base1 := base + |p.funcs|;
    var z := Gen(base1, d, q);
    var d2 := Push(z.context, y, z.reg);
    var w := Gen(base1 + |z.funcs|, d2, body);
    ChoosingParts(base, c, x, a, y, t, b, body);
    ChoosingVars(x, a, y, t, b, body);
    ChoosingIs(x, a, y, t, b, body);
    LetPlaced(m, f, base, c, x, a, Let(y, q, body), s.ip);
    LetPlaced(m, f, base1, d, y, q, body, s.ip + |p.code|);
    var k0, s0 := Defined(m, f, base, c, x, a, FreeVars(Let(y, q, body)), env, fuel, s);
    ReadyFewer(m, f, d, FreeVars(Let(y, q, body)), FreeVars(q), Bind(x, va, env), s0);
    ReadyFewer(m, f, d, FreeVars(Let(y, q, body)), FreeVars(body) - {y} - {x}, Bind(x, va, env), s0);
    ReadyScoped(m, f, d, FreeVars(q), Bind(x, va, env), s0);
    var k1, s1 := Simulate(m, f, base1, d, q, Bind(x, va, env), fuel, s0);
    RanParts(m, f, d.registers, Overwrites(base1, d, q), |z.code|, z.reg, u, s0, k1, s1);
    ReadyKeeps(m, f, d, z.context, FreeVars(body) - {y} - {x}, Bind(x, va, env), s0, s1, Overwrites(base1, d, q));
    GrowsVersion(c, p.context);
    PushSame(p.context, x, p.reg);
    ChoosingRegister(base1, p.context, x, p.reg, t, b);
    Rebound(m, f, z.context, FreeVars(body) - {y}, x, va, u, env, s1, z.reg);
    ResultTaken(base1, d, q);
    ReadyPush(m, f, z.context, FreeVars(body), Bind(x, u, env), s1, y, z.reg, u);
    var k2, s2 := Simulate(m, f, base1 + |z.funcs|, d2, body, Bind(y, u, Bind(x, u, env)), fuel, s1);
    GrowsVersion(d, z.context);
    PushSame(z.context, y, z.reg);
    RanTrans(m, f, c.registers, Overwrites(base, c, a), |p.code|, p.reg, va, s, k0, s0,
             d.registers, Overwrites(base1, d, q), |z.code|, z.reg, u, k1, s1);
    RanTrans(m, f, c.registers, Overwrites(base, c, a) + Overwrites(base1, d, q), |p.code| + |z.code|, z.reg, u, s,
             k0 + k1, s1,
             d2.registers, Overwrites(base1 + |z.funcs|, d2, body), |w.code|, w.reg, v, k2, s2);
    k, t' := k0 + k1 + k2, s2;
    over := Overwrites(base, c, a) + Overwrites(base1, d, q) + Overwrites(base1 + |z.funcs|, d2, body);
  }

  lemma ChoosingIs(x: Symbol, a: Expr, y: Symbol, t: Expr, b: Expr, body: Expr)
    ensures Choosing(x, a, y, t, b, body) == Let(x, a, Let(y, If(t, Identifier(x), b), body))
  {
  }

  lemma ChoosingSees(base: nat, c: Context, x: Symbol, a: Expr, y: Symbol, t: Expr, b: Expr, body: Expr)
    requires WellFormed(c) && ChoosingOnly(base, c, x, a, y, t, b, body)
    ensures Sees(base, c, Choosing(x, a, y, t, b, body))
  {
    hide Gen, Safe, Overwrites, Apart, FreeVars, SeesIf;
    var q := If(t, Identifier(x), b);
    var p := Gen(base, c, a);
    var d := Push(p.context, x, p.reg);
    var z := Gen(base + |p.funcs|, d, q);
    SafeSees(base, c, a);
    SafeSees(base + |p.funcs|, d, q);
    SafeSees(base + |p.funcs| + |z.funcs|, Push(z.context, y, z.reg), body);
    assert Sees(base + |p.funcs|, d, Let(y, q, body));
  }

  /** `let x = a in let y = (if t then x else b) in body`: the program computes what `body` is when
      `x` has the value of `y`. So it is right exactly if that makes no difference to `body`; in
      particular if the test holds. */
  lemma ChoosingExact(x: Symbol, a: Expr, y: Symbol, t: Expr, b: Expr, body: Expr, fuel: nat, va: Value, u: Value,
                      v: Value, right: Value)
    requires var e := Choosing(x, a, y, t, b, body);
             && FreeVars(e) == {} && CompileErrors(AsWritten, e) == 0 && Fits(Compile(AsWritten, e)) &&
                Compile(AsWritten, e)[0].registerCount >= 2
             && Eval(e, Empty, fuel) == Val(right)
    requires ChoosingOnly(1, EmptyContext(AsWritten), x, a, y, t, b, body)
    requires Eval(a, Empty, fuel) == Val(va) && Eval(If(t, Identifier(x), b), Bind(x, va, Empty), fuel) == Val(u)
    requires Eval(body, Bind(y, u, Bind(x, u, Empty)), fuel) == Val(v)
    ensures var m := Compile(AsWritten, Choosing(x, a, y, t, b, body));
            && Eval(body, Bind(y, u, Bind(x, va, Empty)), fuel) == Val(right) && Computes(m, v)
            && (Datum(v) && Datum(right) ==> (Computes(m, right) <==> WordOf(right) == WordOf(v)))
  {
    hide *;
    EmptyRegisters(AsWritten);
    ChoosingValue(x, a, y, t, b, body, fuel, va, u);
    var e, c := Choosing(x, a, y, t, b, body), EmptyContext(AsWritten);
    ChoosingSees(1, c, x, a, y, t, b, body);
    NothingCapturedByProgram(AsWritten, e);
    var s := ProgramStart(AsWritten, e);
    var k, over, s' := ChoosingRuns(Compile(AsWritten, e), 0, 1, c, x, a, y, t, b, body, Empty, fuel, s, va, u, v);
    var w := ProgramReturns(AsWritten, e, over, v, s, k, s');
    ReturnsComputes(Compile(AsWritten, e), v, k + 1, w, s'.heap);
    if Datum(v) && Datum(right) { DatumComputed(Compile(AsWritten, e), v, right); }
  }

  lemma ChoosingValue(x: Symbol, a: Expr, y: Symbol, t: Expr, b: Expr, body: Expr, fuel: nat, va: Value, u: Value)
    requires Eval(a, Empty, fuel) == Val(va) && Eval(If(t, Identifier(x), b), Bind(x, va, Empty), fuel) == Val(u)
    ensures Eval(Choosing(x, a, y, t, b, body), Empty, fuel) == Eval(body, Bind(y, u, Bind(x, va, Empty)), fuel)
  {
  }

  // ----- Tuples -----

  /** Only the first member is compiled, and stored in every slot. */
  predicate CopiedOnly(base: nat, c: Context, e: Expr)
    requires WellFormed(c) && e.Tuple?
  {
    && c.version.AsWritten? && Chain(e, e.length)
    && SafeMembers(base, Allocate(Allocate(c)), NewRegister(Allocate(c)), Compiled(AsWritten, e), 0, e)
  }

  lemma {:induction false} CopiesVars(first: Expr, ms: seq<Expr>, i: nat)
    requires i <= |ms| && forall m :: m in ms ==> m == first
    ensures MembersVars(ms, i) <= FreeVars(first)
    decreases |ms| - i
  {
    if i < |ms| {
      assert ms[i] in ms;
      CopiesVars(first, ms, i + 1);
    }
  }

  /** A tuple with the same value in all of its `n` slots. */
  function Copies(n: nat, v: Value): (r: Value)
    ensures r.TupleV?
  {
    TupleV(seq(n, _ => v))
  }

  /** In any context the machine builds a tuple of copies of the first member's value. */
  lemma TupleRuns(m: Module, f: nat, base: nat, c: Context, e: Expr, v: Value, env: Env, fuel: nat, s: State)
    returns (k: nat, over: set<Byte>, t: State)
    requires Fits(m) && WellFormed(c) && e.Tuple? && CopiedOnly(base, c, e)
    requires Ready(m, f, c, FreeVars(e.first), env, s) && Placed(m, f, base, EmitTuple(base, c, e), s.ip)
    requires Eval(e.first, env, fuel) == Val(v)
    ensures var r := EmitTuple(base, c, e);
            Ran(m, f, c.registers, over, |r.code|, r.reg, Copies(e.length, v), s, k, t)
  {
    hide Ready, SafeMembers, EmitTuple, Placed, Ran, Eval, OverwritesMembers;
    var ms, vs := Compiled(AsWritten, e), Copies(e.length, v).members;
    CopiesVars(e.first, ms, 0);
    ReadyFewer(m, f, c, FreeVars(e.first), MembersVars(ms, 0), env, s);
    assert Values(ms, env, fuel, vs);
    over := OverwritesMembers(base, Allocate(Allocate(c)), Compiled(AsWritten, e), 0, e);
    k, t := SimulateCompiled(m, f, base, c, e, vs, env, fuel, s);
  }

  /** A word stands for both of two tuples exactly if each of its slots does for both members. */
  lemma TupleRep(m: Module, h: Heap, v: Value, vs: seq<Value>, w: Word)
    requires Rep(m, h, Copies(|vs|, v), w)
    ensures w.Ptr? && w.addr < |h| && |h[w.addr]| == |vs| && Complete(h[w.addr])
    ensures Rep(m, h, TupleV(vs), w) <==> forall i :: 0 <= i < |vs| ==> Rep(m, h, vs[i], h[w.addr][i].w)
  {
  }

  lemma CopiedSees(base: nat, c: Context, ms: seq<Expr>, i: nat, whole: Expr, target: Byte)
    requires WellFormed(c) && i <= |ms| && (forall m :: m in ms ==> m < whole) &&
             SafeMembers(base, c, target, ms, i, whole)
    ensures SeesMembers(base, c, ms, i, whole)
  {
    SafeSeesMembers(base, c, target, ms, i, whole);
  }

  lemma TupleCapturesNothing(e: Expr)
    requires e.Tuple? && CopiedOnly(1, EmptyContext(AsWritten), e) && FreeVars(e.first) == {}
    ensures Compile(AsWritten, e)[0].closure == []
  {
    hide Gen, SafeMembers, SeesMembers, EmitMembers, Sees;
    var c := EmptyContext(AsWritten);
    var d, ms, out := Allocate(Allocate(c)), Compiled(AsWritten, e), NewRegister(Allocate(c));
    CopiesVars(e.first, ms, 0);
    CopiedSees(1, d, ms, 0, e, out);
    MembersCapture(1, d, out, ms, 0, e);
    TupleClosure(e);
    ElementsOf(EmitMembers(1, d, out, ms, 0, e).context.closure);
  }

  lemma TupleClosure(e: Expr)
    requires e.Tuple?
    ensures var c := EmptyContext(AsWritten);
            Compile(AsWritten, e)[0].closure
            == EmitMembers(1, Allocate(Allocate(c)), NewRegister(Allocate(c)), Compiled(AsWritten, e), 0,
                           e).context.closure
  {
    hide EmitMembers, Compiled;
    assert Gen(1, EmptyContext(AsWritten), e) == EmitTuple(1, EmptyContext(AsWritten), e);
  }

  /** A tuple program is right exactly if each member is represented by the word in its slot, which
      stands for the first one; a tuple of numbers and truth values exactly if they are all the
      same word. */
  lemma TupleExact(e: Expr, fuel: nat)
    returns (k: nat, w: Word, h: Heap)
    requires e.Tuple? && CopiedOnly(1, EmptyContext(AsWritten), e) && FreeVars(e) == {} &&
             EvalMembers(e, Empty, fuel).Vals?
    requires CompileErrors(AsWritten, e) == 0 && Fits(Compile(AsWritten, e)) &&
             Compile(AsWritten, e)[0].registerCount >= 2
    ensures var m, vs := Compile(AsWritten, e), EvalMembers(e, Empty, fuel).vs;
            && Eval(e, Empty, fuel) == Val(TupleV(vs)) && |vs| == e.length > 0
            && Returns(m, 0, M.Num(0), M.Num(0), [], k, w, h) && Computes(m, Copies(e.length, vs[0]))
            && w.Ptr? && w.addr < |h| && |h[w.addr]| == |vs| && Complete(h[w.addr])
            && (Computes(m, TupleV(vs)) <==> forall i :: 0 <= i < |vs| ==> Rep(m, h, vs[i], h[w.addr][i].w))
            && ((forall i :: 0 <= i < |vs| ==> Datum(vs[i])) ==>
                  (Computes(m, TupleV(vs)) <==> forall i :: 0 <= i < |vs| ==> WordOf(vs[i]) == WordOf(vs[0])))
  {
    hide *;
    var m, vs := Compile(AsWritten, e), EvalMembers(e, Empty, fuel).vs;
    CopiedChain(1, EmptyContext(AsWritten), e);
    TupleValue(e, Empty, fuel);
    k, w, h := TupleReturns(e, vs[0], fuel);
    ReturnsComputes(m, Copies(|vs|, vs[0]), k, w, h);
    ReturnsComputes(m, TupleV(vs), k, w, h);
    TupleRep(m, h, vs[0], vs, w);
    if forall i :: 0 <= i < |vs| ==> Datum(vs[i]) { TupleOfData(m, h, vs, w); }
  }

  lemma TupleReturns(e: Expr, v: Value, fuel: nat) returns (k: nat, w: Word, h: Heap)
    requires e.Tuple? && CopiedOnly(1, EmptyContext(AsWritten), e) && FreeVars(e.first) == {}
    requires Eval(e.first, Empty, fuel) == Val(v)
    requires CompileErrors(AsWritten, e) == 0 && Fits(Compile(AsWritten, e)) &&
             Compile(AsWritten, e)[0].registerCount >= 2
    ensures Returns(Compile(AsWritten, e), 0, M.Num(0), M.Num(0), [], k, w, h)
    ensures Rep(Compile(AsWritten, e), h, Copies(e.length, v), w)
  {
    hide *;
    var c := EmptyContext(AsWritten);
    EmptyRegisters(AsWritten);
    TupleCapturesNothing(e);
    var s := ProgramStart(AsWritten, e);
    TupleIs(e);
    var k0, over, t := TupleRuns(Compile(AsWritten, e), 0, 1, c, e, v, Empty, fuel, s);
    w := ProgramReturns(AsWritten, e, over, Copies(e.length, v), s, k0, t);
    k, h := k0 + 1, t.heap;
  }

  lemma CopiedChain(base: nat, c: Context, e: Expr)
    requires WellFormed(c) && e.Tuple? && CopiedOnly(base, c, e)
    ensures Chain(e, e.length)
  {
  }

  lemma TupleValue(e: Expr, env: Env, fuel: nat)
    requires e.Tuple? && Chain(e, e.length) && EvalMembers(e, env, fuel).Vals?
    ensures var vs := EvalMembers(e, env, fuel).vs;
            && |vs| == e.length > 0 && Eval(e, env, fuel) == Val(TupleV(vs)) && Eval(e.first, env, fuel) == Val(vs[0])
            && FreeVars(e.first) <= FreeVars(e)
  {
    MembersEvaluate(e, e.length, env, fuel);
  }

  lemma TupleIs(e: Expr)
    requires e.Tuple?
    ensures Gen(1, EmptyContext(AsWritten), e) == EmitTuple(1, EmptyContext(AsWritten), e)
  {
    hide EmitTuple;
  }

  lemma TupleOfData(m: Module, h: Heap, vs: seq<Value>, w: Word)
    requires |vs| > 0 && (forall i :: 0 <= i < |vs| ==> Datum(vs[i])) && Rep(m, h, Copies(|vs|, vs[0]), w)
    ensures w.Ptr? && w.addr < |h| && |h[w.addr]| == |vs|
    ensures (forall i :: 0 <= i < |vs| ==> !h[w.addr][i].Uninit? && Rep(m, h, vs[i], h[w.addr][i].w))
            <==> forall i :: 0 <= i < |vs| ==> WordOf(vs[i]) == WordOf(vs[0])
  {
    TupleRep(m, h, vs[0], vs, w);
    var copies := Copies(|vs|, vs[0]).members;
    forall i | 0 <= i < |vs| ensures Rep(m, h, vs[i], h[w.addr][i].w) <==> WordOf(vs[i]) == WordOf(vs[0]) {
      assert Rep(m, h, copies[i], h[w.addr][i].w);
      DatumRep(m, h, vs[0], vs[i], h[w.addr][i].w);
    }
  }

  // ----- A binding that has been popped -----

  /** What the lookup sees when it begins one past the top: the popped binding is still there. */
  function Stale(c: Context): (d: Context)
    requires WellFormed(c) && c.top < |c.bindings|
    ensures WellFormed(d)
  {
    c.(bindings := c.bindings[..c.top + 1], top := c.top + 1)
  }

  /** Two emissions that only differ in the popped binding's being in scope. */
  predicate Alike(c: Context, r: Emit, r': Emit)
    requires WellFormed(c) && c.top < |c.bindings|
  {
    && r.context.bindings == c.bindings && r.context.top == c.top && r.context.version == c.version
    && r' == r.(context := Stale(r.context))
  }

  lemma StaleFind(c: Context, id: Symbol)
    requires WellFormed(c) && c.top < |c.bindings| && c.version.AsWritten?
    ensures FindWritten(c, id) == FindWritten(Stale(c), id)
  {
    FindFromPrefix(c.bindings, Stale(c).bindings, c.top, id);
  }

  lemma StaleIdentifier(c: Context, id: Symbol)
    requires WellFormed(c) && c.top < |c.bindings| && c.version.AsWritten?
    ensures Alike(c, EmitIdentifier(c, id), EmitIdentifier(Stale(c), id))
  {
    StaleFind(c, id);
    hide FindFrom, FindWritten, Encode;
  }

  lemma {:induction false} StaleCaptures(c: Context, target: Byte, symbols: seq<Symbol>, i: nat)
    requires WellFormed(c) && c.top < |c.bindings| && c.version.AsWritten? && i <= |symbols|
    ensures Alike(c, EmitCaptures(c, target, symbols, i), EmitCaptures(Stale(c), target, symbols, i))
    decreases |symbols| - i
  {
    hide Encode, EmitIdentifier;
    if i < |symbols| {
      StaleIdentifier(c, symbols[i]);
      StaleCaptures(EmitIdentifier(c, symbols[i]).context, target, symbols, i + 1);
    }
  }

  lemma StaleLambda(base: nat, c: Context, self: Symbol, param: Symbol, body: Expr, target: Byte)
    requires WellFormed(c) && c.top < |c.bindings| && c.version.AsWritten?
    ensures Alike(c, EmitLambda(base, c, self, param, body, target),
                  EmitLambda(base, Stale(c), self, param, body, target))
  {
    hide Gen, Encode, EmitCaptures;
    StaleCaptures(EmitLiteral(c, base).context, target,
                  Gen(base + 1, BodyContext(c.version, self, param), body).context.closure, 0);
  }

  /** An expression that binds no name itself is compiled as if the popped binding were in scope. */
  lemma {:induction false} StaleGen(base: nat, c: Context, e: Expr)
    requires WellFormed(c) && c.top < |c.bindings| && c.version.AsWritten? && LetNames(e) == {}
    ensures Alike(c, Gen(base, c, e), Gen(base, Stale(c), e))
    decreases e, 1
  {
    hide Encode, EmitIdentifier, EmitCaptures, EmitLambda, EmitApply, EmitBinary, EmitIf, EmitTuple;
    match e
    case Identifier(id) => StaleIdentifier(c, id);
    case Lambda(param, body) => StaleLambda(base, Allocate(c), INVALID_SYMBOL, param, body, NewRegister(c));
    case Apply(f, a) => StaleApply(base, c, f, a);
    case Binary(op, l, r) => StaleBinary(base, c, op, l, r);
    case If(t, a, b) => StaleIf(base, c, t, a, b);
    case Unary(_, a) => StaleGen(base, c, a);
    case Tuple(_, _, _) => StaleTuple(base, c, e);
    case _ =>
  }

  lemma {:induction false} StaleApply(base: nat, c: Context, f: Expr, a: Expr)
    requires WellFormed(c) && c.top < |c.bindings| && c.version.AsWritten? && LetNames(f) == {} && LetNames(a) == {}
    ensures Alike(c, EmitApply(base, c, f, a), EmitApply(base, Stale(c), f, a))
    decreases Apply(f, a), 0, 1
  {
    hide Gen, LetNames, Encode, EmitApply;
    StaleBoth(base, c, f, a, Apply(f, a));
    ApplyShape(base, c, f, a);
    ApplyShape(base, Stale(c), f, a);
  }

  lemma {:induction false} StaleBinary(base: nat, c: Context, op: BinaryOp, l: Expr, r: Expr)
    requires WellFormed(c) && c.top < |c.bindings| && c.version.AsWritten? && LetNames(l) == {} && LetNames(r) == {}
    ensures Alike(c, EmitBinary(base, c, op, l, r), EmitBinary(base, Stale(c), op, l, r))
    decreases Binary(op, l, r), 0, 1
  {
    hide Gen, LetNames, BinaryCode, EmitBinary;
    StaleBoth(base, c, l, r, Binary(op, l, r));
    BinaryShape(base, c, op, l, r);
    BinaryShape(base, Stale(c), op, l, r);
  }

  lemma {:induction false} StaleTuple(base: nat, c: Context, e: Expr)
    requires e.Tuple? && WellFormed(c) && c.top < |c.bindings| && c.version.AsWritten? && LetNames(e.first) == {}
    ensures Alike(c, EmitTuple(base, c, e), EmitTuple(base, Stale(c), e))
    decreases e, 0, 1
  {
    CompiledCopies(e);
    hide EmitMembers, Compiled, Encode, LetNames, Alike, Stale, Grows;
    var d, out, ms := Allocate(Allocate(c)), NewRegister(Allocate(c)), Compiled(AsWritten, e);
    StaleAllocate(c);
    StaleMembers(base, d, out, ms, 0, e, e.first);
    AlikeParts(d, EmitMembers(base, d, out, ms, 0, e), EmitMembers(base, Stale(d), out, ms, 0, e));
    AlikeWhole(c, EmitTuple(base, c, e), EmitTuple(base, Stale(c), e));
  }

  lemma StaleAllocate(c: Context)
    requires WellFormed(c) && c.top < |c.bindings|
    ensures Stale(Allocate(Allocate(c))) == Allocate(Allocate(Stale(c)))
    ensures Stale(c).registers == c.registers && Stale(c).version == c.version
  {
  }

  lemma CompiledCopies(e: Expr)
    requires e.Tuple?
    ensures forall m :: m in Compiled(AsWritten, e) ==> m < e && m == e.first
  {
  }

  lemma {:induction false} StaleBoth(base: nat, c: Context, l: Expr, r: Expr, whole: Expr)
    requires WellFormed(c) && c.top < |c.bindings| && c.version.AsWritten? && l < whole && r < whole
    requires LetNames(l) == {} && LetNames(r) == {}
    ensures Alike(c, Gen(base, c, l), Gen(base, Stale(c), l))
    ensures var x, x' := Gen(base, c, l), Gen(base, Stale(c), l);
            Alike(c, Gen(base + |x.funcs|, x.context, r), Gen(base + |x'.funcs|, x'.context, r))
    decreases whole, 0, 0
  {
    hide Gen, LetNames;
    StaleGen(base, c, l);
    StaleGen(base + |Gen(base, c, l).funcs|, Gen(base, c, l).context, r);
  }

  lemma {:induction false} StaleIf(base: nat, c: Context, t: Expr, a: Expr, b: Expr)
    requires WellFormed(c) && c.top < |c.bindings| && c.version.AsWritten?
    requires LetNames(t) == {} && LetNames(a) == {} && LetNames(b) == {}
    ensures Alike(c, EmitIf(base, c, t, a, b), EmitIf(base, Stale(c), t, a, b))
    decreases If(t, a, b), 0
  {
    hide *;
    var x := StaleOne(base, c, t);
    var y := StaleOne(base + |x.funcs|, x.context, a);
    var z := StaleOne(base + |x.funcs| + |y.funcs|, y.context, b);
    StaleVersion(c);
    IfOf(base, c, t, a, b, x, y, z);
    IfOf(base, Stale(c), t, a, b, Stalely(x), Stalely(y), Stalely(z));
    StaleArms(x, y, z);
    AlikeWhole(c, IfEmit(x, y, z), Stalely(IfEmit(x, y, z)));
  }

  /** The same emission with the popped binding in scope. */
  function Stalely(r: Emit): (s: Emit)
    requires WellFormed(r.context) && r.context.top < |r.context.bindings|
    ensures s.funcs == r.funcs && s.context == Stale(r.context)
  {
    r.(context := Stale(r.context))
  }

  lemma {:induction false} StaleOne(base: nat, c: Context, e: Expr) returns (r: Emit)
    requires WellFormed(c) && c.top < |c.bindings| && c.version.AsWritten? && LetNames(e) == {}
    ensures r == Gen(base, c, e) && WellFormed(r.context) && r.context.bindings == c.bindings
    ensures r.context.top == c.top < |r.context.bindings| && r.context.version == c.version
    ensures Gen(base, Stale(c), e) == Stalely(r)
    decreases e, 2
  {
    r := Gen(base, c, e);
    hide Gen, Stale, LetNames;
    StaleGen(base, c, e);
  }

  lemma IfOf(base: nat, c: Context, t: Expr, a: Expr, b: Expr, x: Emit, y: Emit, z: Emit)
    requires WellFormed(c) && c.version.AsWritten? && x == Gen(base, c, t)
    requires y == Gen(base + |x.funcs|, x.context, a) && z == Gen(base + |x.funcs| + |y.funcs|, y.context, b)
    ensures EmitIf(base, c, t, a, b) == IfEmit(x, y, z)
  {
    hide *;
    IfAsWritten(base, c, t, a, b);
  }

  lemma StaleVersion(c: Context)
    requires WellFormed(c) && c.top < |c.bindings|
    ensures Stale(c).version == c.version
  {
  }

  lemma AlikeParts(c: Context, r: Emit, r': Emit)
    requires WellFormed(c) && c.top < |c.bindings| && Alike(c, r, r')
    ensures WellFormed(r.context) && r.context.bindings == c.bindings && r.context.top == c.top < |r.context.bindings|
    ensures r.context.version == c.version && r' == Stalely(r)
  {
  }

  lemma AlikeWhole(c: Context, r: Emit, r': Emit)
    requires WellFormed(c) && c.top < |c.bindings|
    requires WellFormed(r.context) && r.context.bindings == c.bindings && r.context.top == c.top
    requires r.context.top < |r.context.bindings| && r.context.version == c.version && r' == Stalely(r)
    ensures Alike(c, r, r')
  {
  }

  lemma IfAsWritten(base: nat, c: Context, t: Expr, a: Expr, b: Expr)
    requires WellFormed(c) && c.version.AsWritten?
    ensures var x := Gen(base, c, t);
            var y := Gen(base + |x.funcs|, x.context, a);
            var z := Gen(base + |x.funcs| + |y.funcs|, y.context, b);
            EmitIf(base, c, t, a, b) == IfEmit(x, y, z)
  {
    hide *;
    var x := Gen(base, c, t);
    var y := Gen(base + |x.funcs|, x.context, a);
    GrowsVersion(c, x.context);
    AsWrittenArms(x.context, y.reg);
    NothingMoved(y.code, y.reg);
    IfShape(base, c, t, a, b);
    IfEmitIs(x, y, Gen(base + |x.funcs| + |y.funcs|, y.context, b));
  }

  /** A conditional as written, from its parts. */
  function IfEmit(x: Emit, y: Emit, z: Emit): Emit {
    Emit(z.context, IfCode(x.code, x.reg, y.code, z.code + MoveCode(z.reg, y.reg)), y.reg,
         x.funcs + y.funcs + z.funcs, x.errors + y.errors + z.errors)
  }

  lemma IfEmitIs(x: Emit, y: Emit, z: Emit)
    ensures IfEmit(x, y, z)
            == Emit(z.context, IfCode(x.code, x.reg, y.code, z.code + MoveCode(z.reg, y.reg)), y.reg,
                    x.funcs + y.funcs + z.funcs, x.errors + y.errors + z.errors)
  {
  }

  lemma StaleArms(x: Emit, y: Emit, z: Emit)
    requires WellFormed(x.context) && WellFormed(y.context) && WellFormed(z.context)
    requires x.context.top < |x.context.bindings| && y.context.top < |y.context.bindings|
    requires z.context.top < |z.context.bindings|
    ensures IfEmit(x, y, z).context == z.context
    ensures IfEmit(Stalely(x), Stalely(y), Stalely(z)) == Stalely(IfEmit(x, y, z))
  {
    hide Stale, IfCode, MoveCode;
  }

  lemma AsWrittenArms(c: Context, reg: Byte)
    requires WellFormed(c) && c.version.AsWritten?
    ensures Branches(c) == c && ResultOf(c, reg) == reg
  {
  }

  lemma NothingMoved(code: seq<Byte>, reg: Byte)
    ensures code + MoveCode(reg, reg) == code
  {
  }

  lemma {:induction false} StaleMembers(base: nat, c: Context, target: Byte, ms: seq<Expr>, i: nat, whole: Expr,
                                        first: Expr)
    requires WellFormed(c) && c.top < |c.bindings| && c.version.AsWritten? && i <= |ms| && LetNames(first) == {}
    requires forall m :: m in ms ==> m < whole && m == first
    ensures Alike(c, EmitMembers(base, c, target, ms, i, whole), EmitMembers(base, Stale(c), target, ms, i, whole))
    decreases whole, 0, 0, |ms| - i
  {
    hide Gen, LetNames, Encode;
    if i < |ms| {
      assert ms[i] in ms;
      var v := Gen(base, c, ms[i]);
      StaleGen(base, c, ms[i]);
      StaleMembers(base + |v.funcs|, v.context, target, ms, i + 1, whole, first);
    }
  }

  /** (let y = b in d) op r, where `r` binds no name and is safe if it could see the popped `y`. */
  predicate ShadowingOnly(base: nat, c: Context, op: BinaryOp, y: Symbol, b: Expr, d: Expr, r: Expr)
    requires WellFormed(c)
  {
    var x1 := Gen(base, c, b);
    var c2 := Push(x1.context, y, x1.reg);
    var base2 := base + |x1.funcs|;
    var x2 := Gen(base2, c2, d);
    var base3 := base2 + |x2.funcs|;
    && c.version.AsWritten? && !op.Slash? && LetNames(r) == {}
    && Safe(base, c, b) && Safe(base2, c2, d) && Safe(base3, Seen(x2.context), r)
    && Apart(c, FreeVars(d) + FreeVars(r) - {y}, Overwrites(base, c, b))
    && Apart(c2, FreeVars(r), Overwrites(base2, c2, d))
    && x2.reg !in Overwrites(base3, Seen(x2.context), r)
  }

  /** The scope of the inner body, with nothing popped above it. */
  function Seen(c: Context): (d: Context)
    requires WellFormed(c)
    ensures WellFormed(d) && Grows(c, d)
  {
    c.(bindings := c.bindings[..c.top])
  }

  lemma ShadowingParts(base: nat, c: Context, op: BinaryOp, y: Symbol, b: Expr, d: Expr, r: Expr)
    requires WellFormed(c) && ShadowingOnly(base, c, op, y, b, d, r)
    ensures var x1 := Gen(base, c, b);
            var c2 := Push(x1.context, y, x1.reg);
            var base2 := base + |x1.funcs|;
            var x2 := Gen(base2, c2, d);
            var base3 := base2 + |x2.funcs|;
            && c.version.AsWritten? && !op.Slash? && LetNames(r) == {}
            && Safe(base, c, b) && Safe(base2, c2, d) && Safe(base3, Seen(x2.context), r)
            && Apart(c, FreeVars(d) + FreeVars(r) - {y}, Overwrites(base, c, b))
            && Apart(c2, FreeVars(r), Overwrites(base2, c2, d))
            && x2.reg !in Overwrites(base3, Seen(x2.context), r)
  {
    hide Gen, Safe, Overwrites, Apart, FreeVars, LetNames;
  }

  lemma LetParts(base: nat, c: Context, y: Symbol, b: Expr, d: Expr)
    requires WellFormed(c)
    ensures var x1 := Gen(base, c, b);
            var c2 := Push(x1.context, y, x1.reg);
            var x2 := Gen(base + |x1.funcs|, c2, d);
            var x := Gen(base, c, Let(y, b, d));
            && x.code == x1.code + x2.code && x.reg == x2.reg && x.funcs == x1.funcs + x2.funcs &&
               x.errors == x1.errors + x2.errors
            && x2.context.top == c2.top > 0 && WellFormed(x2.context) && x.context == Pop(x2.context)
            && x.context.version == c.version
  {
    var x := Gen(base, c, Let(y, b, d));
    assert x == EmitLet(base, c, y, b, d) by { hide EmitLet; }
    LetShape(base, c, y, b, d);
    hide Gen, EmitLet;
  }

  /** The scope of the body and what the lookup sees after it are the same. */
  lemma StaleIsSeen(c: Context)
    requires WellFormed(c) && c.top > 0
    ensures Pop(c).top < |Pop(c).bindings| && WellFormed(Pop(c)) && Stale(Pop(c)) == Seen(c)
  {
  }

  /** The second operand is compiled in the scope of the inner `let`. */
  lemma ShadowedOperand(base: nat, c: Context, y: Symbol, b: Expr, d: Expr, r: Expr)
    requires WellFormed(c) && c.version.AsWritten? && LetNames(r) == {}
    ensures var x1 := Gen(base, c, b);
            var c2 := Push(x1.context, y, x1.reg);
            var x2 := Gen(base + |x1.funcs|, c2, d);
            var x := Gen(base, c, Let(y, b, d));
            var z, z' := Gen(base + |x.funcs|, x.context, r), Gen(base + |x1.funcs| + |x2.funcs|, Seen(x2.context), r);
            && z'.code == z.code && z'.reg == z.reg && z'.funcs == z.funcs && z'.errors == z.errors
            && z'.context.registers == z.context.registers && z'.context.closure == z.context.closure
  {
    hide *;
    LetParts(base, c, y, b, d);
    var x1 := Gen(base, c, b);
    var x2 := Gen(base + |x1.funcs|, Push(x1.context, y, x1.reg), d);
    var x := Gen(base, c, Let(y, b, d));
    StaleIsSeen(x2.context);
    StaleGen(base + |x.funcs|, x.context, r);
    AlikeEmits(x.context, Gen(base + |x.funcs|, x.context, r), Gen(base + |x.funcs|, Stale(x.context), r));
  }

  lemma AlikeEmits(c: Context, r: Emit, r': Emit)
    requires WellFormed(c) && c.top < |c.bindings| && Alike(c, r, r')
    ensures r'.code == r.code && r'.reg == r.reg && r'.funcs == r.funcs && r'.errors == r.errors
    ensures r'.context.registers == r.context.registers && r'.context.closure == r.context.closure
  {
  }

  lemma PlacedLike(m: Module, f: nat, base: nat, r: Emit, r': Emit, ip: int)
    requires Placed(m, f, base, r, ip)
    requires r'.code == r.code && r'.funcs == r.funcs && r'.errors == r.errors
    requires r'.context.registers == r.context.registers && r'.context.closure == r.context.closure
    ensures Placed(m, f, base, r', ip)
  {
  }

  function Shadowing(op: BinaryOp, y: Symbol, b: Expr, d: Expr, r: Expr): Expr {
    Binary(op, Let(y, b, d), r)
  }

  /** In any context both operands are computed, the second one for the inner `y`. */
  lemma ShadowedOperands(m: Module, f: nat, base: nat, c: Context, op: BinaryOp, y: Symbol, b: Expr, d: Expr, r: Expr,
                         env: Env, fuel: nat, s: State, vb: Value, vd: Value, vr: Value)
    returns (k: nat, over: set<Byte>, t: State)
    requires Fits(m) && WellFormed(c) && ShadowingOnly(base, c, op, y, b, d, r)
    requires Ready(m, f, c, FreeVars(b) + (FreeVars(d) + FreeVars(r) - {y}), env, s)
    requires var x := Gen(base, c, Let(y, b, d));
             Placed(m, f, base, x, s.ip) &&
             Placed(m, f, base + |x.funcs|, Gen(base + |x.funcs|, x.context, r), s.ip + |x.code|)
    requires Eval(b, env, fuel) == Val(vb) && Eval(d, Bind(y, vb, env), fuel) == Val(vd)
    requires Eval(r, Bind(y, vb, env), fuel) == Val(vr)
    ensures var x := Gen(base, c, Let(y, b, d));
            var z := Gen(base + |x.funcs|, x.context, r);
            && Ran(m, f, c.registers, over, |x.code| + |z.code|, z.reg, vr, s, k, t)
            && x.reg < |t.regs| && Rep(m, t.heap, vd, t.regs[x.reg])
  {
    hide *;
    var x1 := Gen(base, c, b);
    var c2 := Push(x1.context, y, x1.reg);
    var base2 := base + |x1.funcs|;
    var x2 := Gen(base2, c2, d);
    var c3, base3 := Seen(x2.context), base2 + |x2.funcs|;
    var z := Gen(base3, c3, r);
    ShadowingParts(base, c, op, y, b, d, r);
    LetParts(base, c, y, b, d);
    ShadowedOperand(base, c, y, b, d, r);
    var x := Gen(base, c, Let(y, b, d));
    LetPlaced(m, f, base, c, y, b, d, s.ip);
    PlacedLike(m, f, base3, Gen(base3, x.context, r), z, s.ip + |x.code|);
    var both := FreeVars(d) + FreeVars(r);
    var k0, s0 := Defined(m, f, base, c, y, b, both, env, fuel, s);
    ReadyFewer(m, f, c2, both, FreeVars(d), Bind(y, vb, env), s0);
    ReadyFewer(m, f, c2, both, FreeVars(r), Bind(y, vb, env), s0);
    ReadyScoped(m, f, c2, FreeVars(d), Bind(y, vb, env), s0);
    var k1, s1 := Simulate(m, f, base2, c2, d, Bind(y, vb, env), fuel, s0);
    var over1 := Overwrites(base2, c2, d);
    RanParts(m, f, c2.registers, over1, |x2.code|, x2.reg, vd, s0, k1, s1);
    GrowsTrans(c2, x2.context, c3);
    ReadyKeeps(m, f, c2, c3, FreeVars(r), Bind(y, vb, env), s0, s1, over1);
    ResultTaken(base2, c2, d);
    var k2, s2 := Simulate(m, f, base3, c3, r, Bind(y, vb, env), fuel, s1);
    var over2 := Overwrites(base3, c3, r);
    GrowsVersion(c, x1.context);
    PushSame(x1.context, y, x1.reg);
    GrowsVersion(c2, x2.context);
    GrowsVersion(x2.context, c3);
    SeenSame(x2.context);
    RanTrans(m, f, c2.registers, over1, |x2.code|, x2.reg, vd, s0, k1, s1, c3.registers, over2, |z.code|, z.reg, vr,
             k2, s2);
    RanTrans(m, f, c.registers, Overwrites(base, c, b), |x1.code|, x1.reg, vb, s, k0, s0,
             c2.registers, over1 + over2, |x2.code| + |z.code|, z.reg, vr, k1 + k2, s2);
    RanParts(m, f, c3.registers, over2, |z.code|, z.reg, vr, s1, k2, s2);
    k, t, over := k0 + (k1 + k2), s2, Overwrites(base, c, b) + (over1 + over2);
  }

  lemma SeenSame(c: Context)
    requires WellFormed(c)
    ensures Seen(c).registers == c.registers
  {
  }

  lemma ShadowingIs(base: nat, c: Context, op: BinaryOp, y: Symbol, b: Expr, d: Expr, r: Expr)
    requires WellFormed(c)
    ensures Gen(base, c, Shadowing(op, y, b, d, r)) == EmitBinary(base, c, op, Let(y, b, d), r)
    ensures FreeVars(Shadowing(op, y, b, d, r)) == FreeVars(b) + (FreeVars(d) - {y}) + FreeVars(r)
  {
    hide EmitBinary;
  }

  /** `(let y = b in d) op r` in any context: the machine computes the second operand for the inner
      `y`, which is out of scope. */
  lemma ShadowingRuns(m: Module, f: nat, base: nat, c: Context, op: BinaryOp, y: Symbol, b: Expr, d: Expr, r: Expr,
                      env: Env, fuel: nat, s: State, vb: Value, vd: Value, vr: Value, v: Value)
    returns (k: nat, over: set<Byte>, t: State)
    requires Fits(m) && WellFormed(c) && ShadowingOnly(base, c, op, y, b, d, r)
    requires Ready(m, f, c, FreeVars(Shadowing(op, y, b, d, r)), env, s)
    requires Placed(m, f, base, Gen(base, c, Shadowing(op, y, b, d, r)), s.ip)
    requires Eval(b, env, fuel) == Val(vb) && Eval(d, Bind(y, vb, env), fuel) == Val(vd)
    requires Eval(r, Bind(y, vb, env), fuel) == Val(vr) && BinaryValue(op, vd, vr) == Val(v)
    ensures var z := Gen(base, c, Shadowing(op, y, b, d, r)); Ran(m, f, c.registers, over, |z.code|, z.reg, v, s, k, t)
  {
    hide *;
    var l := Let(y, b, d);
    ShadowingIs(base, c, op, y, b, d, r);
    OperandsPlaced(m, f, base, c, op, l, r, s.ip);
    var vars := FreeVars(b) + (FreeVars(d) - {y}) + FreeVars(r);
    ReadyFewer(m, f, c, vars, FreeVars(b) + (FreeVars(d) + FreeVars(r) - {y}), env, s);
    ReadyFrame(m, f, c, vars, env, s);
    ReadyScoped(m, f, c, vars, env, s);
    var k0, s0;
    k0, over, s0 := ShadowedOperands(m, f, base, c, op, y, b, d, r, env, fuel, s, vb, vd, vr);
    t := OperatorDone(m, f, base, c, op, l, r, over, vd, vr, s, k0, s0);
    k := k0 + 1;
  }

  /** The variables are all in registers. */
  predicate Held(c: Context, vars: set<Symbol>)
    requires WellFormed(c)
  {
    forall id :: id in vars ==> Find(c, id).Some?
  }

  lemma HeldGrows(c: Context, d: Context, vars: set<Symbol>)
    requires WellFormed(c) && Grows(c, d) && Held(c, vars)
    ensures Held(d, vars)
  {
    forall id | id in vars ensures Find(d, id).Some? { FindGrows(c, d, id); }
  }

  lemma HeldPush(c: Context, id: Symbol, reg: Byte, vars: set<Symbol>)
    requires WellFormed(c) && Held(c, vars - {id})
    ensures Held(Push(c, id, reg), vars)
  {
    forall z | z in vars ensures Find(Push(c, id, reg), z).Some? {
      FindPush(c, id, reg, z);
      assert z != id ==> z in vars - {id};
    }
  }

  lemma HeldCapturesNothing(base: nat, c: Context, e: Expr)
    requires WellFormed(c) && Safe(base, c, e) && Held(c, FreeVars(e)) && c.closure == []
    ensures Gen(base, c, e).context.closure == []
  {
    hide Gen, Safe, Sees;
    SafeSees(base, c, e);
    ClosureIsFreeVars(base, c, e);
    ElementsOf(Gen(base, c, e).context.closure);
    assert Unbound(c, FreeVars(e)) == {};
  }

  lemma ShadowingCapturesNothing(base: nat, c: Context, op: BinaryOp, y: Symbol, b: Expr, d: Expr, r: Expr)
    requires WellFormed(c) && ShadowingOnly(base, c, op, y, b, d, r) &&
             Held(c, FreeVars(Shadowing(op, y, b, d, r))) && c.closure == []
    ensures Gen(base, c, Shadowing(op, y, b, d, r)).context.closure == []
  {
    hide *;
    ShadowingIs(base, c, op, y, b, d, r);
    HeldOperands(c, y, b, d, r);
    var x1 := Gen(base, c, b);
    var c2 := Push(x1.context, y, x1.reg);
    var base2 := base + |x1.funcs|;
    var x2 := Gen(base2, c2, d);
    var c3, base3 := Seen(x2.context), base2 + |x2.funcs|;
    ShadowingParts(base, c, op, y, b, d, r);
    ShadowedOperand(base, c, y, b, d, r);
    HeldCapturesNothing(base, c, b);
    HeldGrows(c, x1.context, FreeVars(d) - {y});
    HeldGrows(c, x1.context, FreeVars(r) - {y});
    HeldPush(x1.context, y, x1.reg, FreeVars(d));
    HeldPush(x1.context, y, x1.reg, FreeVars(r));
    PushClosure(x1.context, y, x1.reg);
    HeldCapturesNothing(base2, c2, d);
    GrowsTrans(c2, x2.context, c3);
    HeldGrows(c2, c3, FreeVars(r));
    SeenClosure(x2.context);
    HeldCapturesNothing(base3, c3, r);
    BinaryClosure(base, c, op, Let(y, b, d), r);
    LetParts(base, c, y, b, d);
  }

  lemma HeldOperands(c: Context, y: Symbol, b: Expr, d: Expr, r: Expr)
    requires WellFormed(c) && Held(c, FreeVars(b) + (FreeVars(d) - {y}) + FreeVars(r))
    ensures Held(c, FreeVars(b)) && Held(c, FreeVars(d) - {y}) && Held(c, FreeVars(r) - {y})
  {
  }

  lemma PushClosure(c: Context, id: Symbol, reg: Byte)
    requires WellFormed(c)
    ensures Push(c, id, reg).closure == c.closure
  {
  }

  lemma SeenClosure(c: Context)
    requires WellFormed(c)
    ensures Seen(c).closure == c.closure
  {
  }

  lemma BinaryClosure(base: nat, c: Context, op: BinaryOp, l: Expr, r: Expr)
    requires WellFormed(c)
    ensures var x := Gen(base, c, l);
            EmitBinary(base, c, op, l, r).context.closure == Gen(base + |x.funcs|, x.context, r).context.closure
  {
    hide Gen;
  }

  /** `let x = a in (let y = b in d) op r`, where `r` binds no name: the program computes the operator
      for what `r` is when `y` has its inner value. So it is right exactly if the result is the same. */
  lemma ShadowingExact(x: Symbol, a: Expr, op: BinaryOp, y: Symbol, b: Expr, d: Expr, r: Expr, fuel: nat,
                       va: Value, vb: Value, vd: Value, vr: Value, v: Value, right: Value)
    requires var e, c := Let(x, a, Shadowing(op, y, b, d, r)), EmptyContext(AsWritten);
             && FreeVars(e) == {} && CompileErrors(AsWritten, e) == 0 && Fits(Compile(AsWritten, e)) &&
                Compile(AsWritten, e)[0].registerCount >= 2
             && Eval(e, Empty, fuel) == Val(right) && Safe(1, c, a)
             && var p := Gen(1, c, a); ShadowingOnly(1 + |p.funcs|, Push(p.context, x, p.reg), op, y, b, d, r)
    requires var env := Bind(x, va, Empty);
             && Eval(a, Empty, fuel) == Val(va) && Eval(b, env, fuel) == Val(vb) &&
                Eval(d, Bind(y, vb, env), fuel) == Val(vd)
             && Eval(r, Bind(y, vb, env), fuel) == Val(vr) && BinaryValue(op, vd, vr) == Val(v)
    ensures var m, o := Compile(AsWritten, Let(x, a, Shadowing(op, y, b, d, r))), Eval(r, Bind(x, va, Empty), fuel);
            && o.Val? && BinaryValue(op, vd, o.v) == Val(right) && Computes(m, v)
            && (Computes(m, right) <==> right == v)
  {
    hide *;
    var e := Let(x, a, Shadowing(op, y, b, d, r));
    ShadowingValue(x, a, op, y, b, d, r, fuel, va, vb, vd, right);
    OperatorData(op, vd, vr, Eval(r, Bind(x, va, Empty), fuel).v);
    var k, over, t := ShadowingProgram(x, a, op, y, b, d, r, fuel, va, vb, vd, vr, v);
    var s := ProgramStart(AsWritten, e);
    var w := ProgramReturns(AsWritten, e, over, v, s, k, t);
    ReturnsComputes(Compile(AsWritten, e), v, k + 1, w, t.heap);
    DatumComputed(Compile(AsWritten, e), v, right);
  }

  lemma ShadowingValue(x: Symbol, a: Expr, op: BinaryOp, y: Symbol, b: Expr, d: Expr, r: Expr, fuel: nat,
                       va: Value, vb: Value, vd: Value, right: Value)
    requires Eval(Let(x, a, Shadowing(op, y, b, d, r)), Empty, fuel) == Val(right)
    requires Eval(a, Empty, fuel) == Val(va) && Eval(b, Bind(x, va, Empty), fuel) == Val(vb)
    requires Eval(d, Bind(y, vb, Bind(x, va, Empty)), fuel) == Val(vd)
    ensures var o := Eval(r, Bind(x, va, Empty), fuel); o.Val? && BinaryValue(op, vd, o.v) == Val(right)
  {
    hide BinaryValue;
    var env := Bind(x, va, Empty);
    assert Eval(Shadowing(op, y, b, d, r), env, fuel) == Val(right);
    assert Eval(Let(y, b, d), env, fuel) == Val(vd);
  }

  /** The two results of an operator are of the same kind. */
  lemma OperatorData(op: BinaryOp, a: Value, b: Value, b': Value)
    requires BinaryValue(op, a, b).Val? && BinaryValue(op, a, b').Val?
    ensures var v, v' := BinaryValue(op, a, b).v, BinaryValue(op, a, b').v;
            Datum(v) && Datum(v') && (WordOf(v) == WordOf(v') <==> v == v')
  {
  }

  lemma ShadowingProgram(x: Symbol, a: Expr, op: BinaryOp, y: Symbol, b: Expr, d: Expr, r: Expr, fuel: nat,
                         va: Value, vb: Value, vd: Value, vr: Value, v: Value)
    returns (k: nat, over: set<Byte>, t: State)
    requires var e, c := Let(x, a, Shadowing(op, y, b, d, r)), EmptyContext(AsWritten);
             && FreeVars(e) == {} && CompileErrors(AsWritten, e) == 0 && Fits(Compile(AsWritten, e)) &&
                Compile(AsWritten, e)[0].registerCount >= 2
             && Safe(1, c, a) && var p := Gen(1, c, a);
                ShadowingOnly(1 + |p.funcs|, Push(p.context, x, p.reg), op, y, b, d, r)
    requires var env := Bind(x, va, Empty);
             && Eval(a, Empty, fuel) == Val(va) && Eval(b, env, fuel) == Val(vb) &&
                Eval(d, Bind(y, vb, env), fuel) == Val(vd)
             && Eval(r, Bind(y, vb, env), fuel) == Val(vr) && BinaryValue(op, vd, vr) == Val(v)
    ensures var m, e := Compile(AsWritten, Let(x, a, Shadowing(op, y, b, d, r))), Let(x, a, Shadowing(op, y, b, d, r));
            && m[0].closure == []
            && var z := Gen(1, EmptyContext(AsWritten), e);
               Ran(m, 0, 0, over, |z.code|, z.reg, v, M.State(0, M.Frame(m[0].registerCount, M.Num(0), M.Num(0)), []),
                   k, t)
  {
    var inner := Shadowing(op, y, b, d, r);
    var e, c := Let(x, a, inner), EmptyContext(AsWritten);
    hide *;
    LetVars(x, a, inner);
    ProgramClosure(e);
    var m, p := Compile(AsWritten, e), Gen(1, c, a);
    var c1, env := Push(p.context, x, p.reg), Bind(x, va, Empty);
    var z := Gen(1 + |p.funcs|, c1, inner);
    EmptyRegisters(AsWritten);
    HeldNothing(c);
    HeldCapturesNothing(1, c, a);
    HeldNothing(p.context);
    HeldPush(p.context, x, p.reg, FreeVars(inner));
    PushClosure(p.context, x, p.reg);
    ShadowingCapturesNothing(1 + |p.funcs|, c1, op, y, b, d, r);
    LetParts(1, c, x, a, inner);
    PopClosure(z.context);
    var s := ProgramStart(AsWritten, e);
    LetPlaced(m, 0, 1, c, x, a, inner, s.ip);
    ApartNothing(c, Overwrites(1, c, a));
    var k0, s0 := Defined(m, 0, 1, c, x, a, FreeVars(inner), Empty, fuel, s);
    var k1, over1, s1 := ShadowingRuns(m, 0, 1 + |p.funcs|, c1, op, y, b, d, r, env, fuel, s0, vb, vd, vr, v);
    GrowsVersion(c, p.context);
    PushSame(p.context, x, p.reg);
    RanTrans(m, 0, 0, Overwrites(1, c, a), |p.code|, p.reg, va, s, k0, s0, c1.registers, over1, |z.code|, z.reg, v,
             k1, s1);
    k, over, t := k0 + k1, Overwrites(1, c, a) + over1, s1;
  }

  lemma LetVars(x: Symbol, a: Expr, inner: Expr)
    requires FreeVars(Let(x, a, inner)) == {}
    ensures FreeVars(a) == {} && FreeVars(inner) - {x} == {} && FreeVars(a) + (FreeVars(inner) - {x}) == {}
  {
  }

  lemma HeldNothing(c: Context)
    requires WellFormed(c)
    ensures Held(c, {})
  {
  }

  lemma ApartNothing(c: Context, regs: set<Byte>)
    requires WellFormed(c)
    ensures Apart(c, {}, regs)
  {
  }

  lemma PopClosure(c: Context)
    requires c.top > 0
    ensures Pop(c).closure == c.closure
  {
  }

  lemma EmptyRegisters(v: Version)
    ensures EmptyContext(v).registers == 0 && EmptyContext(v).closure == [] && EmptyContext(v).version == v
  {
  }

  lemma ProgramClosure(e: Expr)
    ensures Compile(AsWritten, e)[0].closure == Gen(1, EmptyContext(AsWritten), e).context.closure
  {
    hide Gen;
  }
}
