/** The other half of preservation: while the source is still evaluating, so is the machine. */
module Divergence {
  import opened Wrappers
  import opened Syntax
  import opened Semantics
  import opened Bytecode
  import M = Machine
  import opened Codegen
  import opened Safety
  import opened Frames
  import opened ClosureConversion
  import opened Representation
  import opened Simulation
  import opened Preservation

  /** A state from which the machine runs out of fuel can only be reached by running out of it
      before. */
  lemma OutLater(m: Module, f: nat, s: State, k: nat, t: State, fuel: nat)
    requires f < |m| && M.Reaches(m, f, s, k, t) && M.Run(m, f, t, fuel) == M.OutOfFuel
    ensures M.Run(m, f, s, fuel) == M.OutOfFuel
  {
    assert M.Run(m, f, s, k + fuel) == M.OutOfFuel;
    if M.Run(m, f, s, fuel) != M.OutOfFuel { M.RunMonotonic(m, f, s, fuel, k); }
  }

  /** A source evaluation that needs more than `fuel` nested calls is compiled to a run of more
      than `fuel` instructions. */
  lemma {:induction false} Diverge(m: Module, f: nat, base: nat, c: Context, e: Expr, env: Env, fuel: nat, s: State)
    requires Fits(m) && WellFormed(c) && Ready(m, f, c, FreeVars(e), env, s) && Safe(base, c, e)
    requires Placed(m, f, base, Gen(base, c, e), s.ip) && Eval(e, env, fuel).Timeout?
    ensures M.Run(m, f, s, fuel) == M.OutOfFuel
    decreases fuel, e, 2
  {
    hide Rep, Bound, M.Reaches, CodeAt, FuncsAt, Encode, EmitIdentifier, EmitLambda, EmitLiteral, Placed, M.Run, Ready,
         SafeLambda, Preserved, Grows, SafeBoth, SafeLet, SafeLetRec, SafeIf, OverwritesBoth, FindWritten;
    match e
    case Apply(g, a) => DivergeApply(m, f, base, c, g, a, env, fuel, s);
    case Let(id, value, body) => DivergeLet(m, f, base, c, id, value, body, env, fuel, s);
    case LetRec(id, value, body) => DivergeLetRec(m, f, base, c, id, value, body, env, fuel, s);
    case If(q, a, b) => DivergeIf(m, f, base, c, q, a, b, env, fuel, s);
    case Binary(op, l, r) => DivergeBinary(m, f, base, c, op, l, r, env, fuel, s);
    case Unary(op, a) => DivergeUnary(m, f, base, c, op, a, env, fuel, s);
    case Tuple(_, _, _) => DivergeTuple(m, f, base, c, e, env, fuel, s);
  }

  lemma {:induction false} DivergeBoth(m: Module, f: nat, base: nat, c: Context, l: Expr, r: Expr, whole: Expr,
                                       env: Env, fuel: nat, s: State)
    requires Fits(m) && l < whole && r < whole && WellFormed(c) && SafeBoth(base, c, l, r, whole)
    requires Ready(m, f, c, FreeVars(l) + FreeVars(r), env, s)
    requires Eval(l, env, fuel).Timeout? || (Eval(l, env, fuel).Val? && Eval(r, env, fuel).Timeout?)
    requires var x := Gen(base, c, l);
             && Placed(m, f, base, x, s.ip)
             && Placed(m, f, base + |x.funcs|, Gen(base + |x.funcs|, x.context, r), s.ip + |x.code|)
    ensures M.Run(m, f, s, fuel) == M.OutOfFuel
    decreases fuel, whole, 0
  {
    hide Gen, Safe, Rep, Bound, M.Reaches, M.Run, Eval, Overwrites, CodeAt, FuncsAt;
    var x := Gen(base, c, l);
    ReadyFewer(m, f, c, FreeVars(l) + FreeVars(r), FreeVars(l), env, s);
    ReadyFewer(m, f, c, FreeVars(l) + FreeVars(r), FreeVars(r), env, s);
    if Eval(l, env, fuel).Timeout? {
      Diverge(m, f, base, c, l, env, fuel, s);
    } else {
      var k, t := Simulate(m, f, base, c, l, env, fuel, s);
      PrefixKeeps(s.heap, t.heap);
      ReadyKeeps(m, f, c, x.context, FreeVars(r), env, s, t, Overwrites(base, c, l));
      Diverge(m, f, base + |x.funcs|, x.context, r, env, fuel, t);
      OutLater(m, f, s, k, t, fuel);
    }
  }

  lemma {:induction false} DivergeBinary(m: Module, f: nat, base: nat, c: Context, op: BinaryOp, l: Expr, r: Expr,
                                         env: Env, fuel: nat, s: State)
    requires var e := Binary(op, l, r);
             && Fits(m) && WellFormed(c) && Ready(m, f, c, FreeVars(l) + FreeVars(r), env, s) &&
                SafeBoth(base, c, l, r, e)
             && Placed(m, f, base, EmitBinary(base, c, op, l, r), s.ip) && Eval(e, env, fuel).Timeout?
    ensures M.Run(m, f, s, fuel) == M.OutOfFuel
    decreases fuel, Binary(op, l, r), 1
  {
    hide Gen, Safe, SafeBoth, Ready, M.Run, CodeAt, FuncsAt;
    var x := Gen(base, c, l);
    var y := Gen(base + |x.funcs|, x.context, r);
    var z := EmitBinary(base, c, op, l, r);
    PlacedTwo(m, f, base, x, y, z, z.code[|x.code| + |y.code|..], s.ip);
    DivergeBoth(m, f, base, c, l, r, Binary(op, l, r), env, fuel, s);
  }

  lemma {:induction false} DivergeApply(m: Module, f: nat, base: nat, c: Context, l: Expr, r: Expr,
                                        env: Env, fuel: nat, s: State)
    requires var e := Apply(l, r);
             && Fits(m) && WellFormed(c) && Ready(m, f, c, FreeVars(l) + FreeVars(r), env, s) &&
                SafeBoth(base, c, l, r, e)
             && Placed(m, f, base, EmitApply(base, c, l, r), s.ip) && Eval(e, env, fuel).Timeout?
    ensures M.Run(m, f, s, fuel) == M.OutOfFuel
    decreases fuel, Apply(l, r), 1
  {
    hide Gen, Safe, SafeBoth, Rep, Bound, M.Reaches, Overwrites, OverwritesBoth, CodeAt, FuncsAt, M.Run, M.Load,
         FunctionFor, CallEnv, M.Step, M.Execute, M.IsClosure;
    var e := Apply(l, r);
    var x := Gen(base, c, l);
    var y := Gen(base + |x.funcs|, x.context, r);
    var z := EmitApply(base, c, l, r);
    var i := Call(x.reg, y.reg, z.reg);
    PlacedTwo(m, f, base, x, y, z, Encode(i), s.ip);
    if Eval(l, env, fuel).Timeout? || Eval(r, env, fuel).Timeout? {
      DivergeBoth(m, f, base, c, l, r, e, env, fuel, s);
    } else {
      var k, t := SimulateBoth(m, f, base, c, l, r, e, env, fuel, s);
      var fv, av := Eval(l, env, fuel).v, Eval(r, env, fuel).v;
      var fw, aw := t.regs[x.reg], t.regs[y.reg];
      var g := ClosureFunction(m, t.heap, fv, fw);
      if fuel > 0 { DivergeFunction(m, g, fv, fw, av, aw, t.heap, fuel - 1); }
      CallRunsOut(m, f, t, i, g, fuel);
      OutLater(m, f, s, k, t, fuel);
    }
  }

  lemma CallRunsOut(m: Module, f: nat, s: State, i: Instr, g: nat, fuel: nat)
    requires f < |m| && g < |m| && g < 0x8000_0000 && i.Call? && s.ip >= 0 && CodeAt(m[f].code, s.ip, Encode(i))
    requires i.funcReg < |s.regs| && i.argReg < |s.regs| && i.dst < |s.regs|
    requires M.IsClosure(m, s.heap, s.regs[i.funcReg]) && M.Load(m, s.heap, s.regs[i.funcReg], 0) == Some(M.Num(g))
    requires fuel > 0 ==> M.Enter(m, g, s.regs[i.funcReg], s.regs[i.argReg], s.heap, fuel - 1) == M.OutOfFuel
    ensures M.Run(m, f, s, fuel) == M.OutOfFuel
  {
    FetchEncoded(m[f].code, s.ip, i);
  }

  lemma {:induction false} DivergeFunction(m: Module, g: nat, c: Value, w: Word, arg: Value, aw: Word, h: Heap,
                                           fuel: nat)
    requires Fits(m) && c.ClosureV? && Rep(m, h, c, w) && Rep(m, h, arg, aw)
    requires g < |m| && M.Load(m, h, w, 0) == Some(M.Num(g)) && FunctionFor(m, g, c.self, c.param, c.body)
    requires Eval(c.body, CallEnv(c, arg), fuel).Timeout?
    ensures M.Enter(m, g, w, aw, h, fuel) == M.OutOfFuel
    decreases fuel, c.body, 3
  {
    hide Gen, Safe, Rep, Bound, FuncsAt, CodeAt, M.Reaches, M.Run, CallEnv;
    var v: Version :| FunctionAs(v, m, g, c.self, c.param, c.body);
    var x := BodyContext(v, c.self, c.param);
    var child := Gen(g + 1, x, c.body);
    var s := M.State(0, M.Frame(m[g].registerCount, w, aw), h);
    BodyReady(v, m, h, c, w, g, arg, aw);
    FinishPlaced(m[g].code, child.code);
    Diverge(m, g, g + 1, x, c.body, CallEnv(c, arg), fuel, s);
  }

  lemma {:induction false} DivergeLet(m: Module, f: nat, base: nat, c: Context, id: Symbol, value: Expr, body: Expr,
                                      env: Env, fuel: nat, s: State)
    requires var e := Let(id, value, body);
             && Fits(m) && WellFormed(c) && Ready(m, f, c, FreeVars(e), env, s) && SafeLet(base, c, id, value, body)
             && Placed(m, f, base, EmitLet(base, c, id, value, body), s.ip) && Eval(e, env, fuel).Timeout?
    ensures M.Run(m, f, s, fuel) == M.OutOfFuel
    decreases fuel, Let(id, value, body), 1
  {
    hide Gen, Safe, Rep, Bound, M.Reaches, CodeAt, FuncsAt, M.Run, Overwrites;
    var x := Gen(base, c, value);
    var d := Push(x.context, id, x.reg);
    var y := Gen(base + |x.funcs|, d, body);
    var r := EmitLet(base, c, id, value, body);
    assert r.code == x.code + y.code + [];
    PlacedTwo(m, f, base, x, y, r, [], s.ip);
    var vars := FreeVars(body) - {id};
    ReadyFewer(m, f, c, FreeVars(Let(id, value, body)), FreeVars(value), env, s);
    ReadyFewer(m, f, c, FreeVars(Let(id, value, body)), vars, env, s);
    if Eval(value, env, fuel).Timeout? {
      Diverge(m, f, base, c, value, env, fuel, s);
    } else {
      var v := Eval(value, env, fuel).v;
      ResultTaken(base, c, value);
      var k, t := Simulate(m, f, base, c, value, env, fuel, s);
      PrefixKeeps(s.heap, t.heap);
      ReadyKeeps(m, f, c, x.context, vars, env, s, t, Overwrites(base, c, value));
      ReadyPush(m, f, x.context, FreeVars(body), env, t, id, x.reg, v);
      Diverge(m, f, base + |x.funcs|, d, body, Bind(id, v, env), fuel, t);
      OutLater(m, f, s, k, t, fuel);
    }
  }

  lemma {:induction false} DivergeLetRec(m: Module, f: nat, base: nat, c: Context, id: Symbol, value: Expr, body: Expr,
                                         env: Env, fuel: nat, s: State)
    requires var e := LetRec(id, value, body);
             && Fits(m) && WellFormed(c) && Ready(m, f, c, FreeVars(e), env, s) && SafeLetRec(base, c, id, value, body)
             && Placed(m, f, base, EmitLetRec(base, c, id, value, body), s.ip) && Eval(e, env, fuel).Timeout?
    ensures M.Run(m, f, s, fuel) == M.OutOfFuel
    decreases fuel, LetRec(id, value, body), 1
  {
    hide Gen, Safe, Rep, Bound, M.Reaches, CodeAt, FuncsAt, M.Run, EmitLambda, SafeLambda;
    var target := NewRegister(c);
    var x := EmitLambda(base, Push(Allocate(c), id, target), id, value.param, value.body, target);
    var y := Gen(base + |x.funcs|, x.context, body);
    var r := EmitLetRec(base, c, id, value, body);
    assert r.code == x.code + y.code + [];
    PlacedTwo(m, f, base, x, y, r, [], s.ip);
    var v := ClosureV(id, value.param, value.body, env);
    var k, t := SimulateRecursive(m, f, base, c, id, value, body, env, s);
    Diverge(m, f, base + |x.funcs|, x.context, body, Bind(id, v, env), fuel, t);
    OutLater(m, f, s, k, t, fuel);
  }

  lemma IfTimeout(q: Expr, a: Expr, b: Expr, env: Env, fuel: nat)
    requires Eval(If(q, a, b), env, fuel).Timeout?
    ensures var v := Eval(q, env, fuel);
            v.Timeout? || (v.Val? && v.v.BoolV? && Eval(if v.v.b then a else b, env, fuel).Timeout?)
  {
  }

  lemma TestedReaches(m: Module, f: nat, base: nat, c: Context, q: Expr, s: State, k: nat, t: State)
    requires WellFormed(c) && Tested(m, f, base, c, q, s, k, t)
    ensures f < |m| && M.Reaches(m, f, s, k, t)
  {
  }

  lemma {:induction false} DivergeIf(m: Module, f: nat, base: nat, c: Context, q: Expr, a: Expr, b: Expr,
                                     env: Env, fuel: nat, s: State)
    requires var e := If(q, a, b);
             && Fits(m) && WellFormed(c) && Ready(m, f, c, FreeVars(e), env, s) && SafeIf(base, c, q, a, b)
             && Placed(m, f, base, EmitIf(base, c, q, a, b), s.ip) && Eval(e, env, fuel).Timeout?
    ensures M.Run(m, f, s, fuel) == M.OutOfFuel
    decreases fuel, If(q, a, b), 1
  {
    hide *;
    var x := Gen(base, c, q);
    var d := Branches(x.context);
    var y := Gen(base + |x.funcs|, d, a);
    SafeIfParts(base, c, q, a, b);
    IfVars(q, a, b);
    IfTimeout(q, a, b, env, fuel);
    ReadyFewer(m, f, c, FreeVars(If(q, a, b)), FreeVars(q), env, s);
    TestPlaced(m, f, base, c, q, a, b, s.ip);
    if Eval(q, env, fuel).Timeout? {
      Diverge(m, f, base, c, q, env, fuel, s);
    } else {
      var k, t := SimulateTest(m, f, base, c, q, a, b, env, fuel, s);
      TestedReaches(m, f, base, c, q, s, k, t);
      if Eval(q, env, fuel).v.b {
        IfPlaced(m, f, base, c, q, a, b, s.ip);
        Diverge(m, f, base + |x.funcs|, d, a, env, fuel, t);
      } else {
        ElsePlaced(m, f, base, c, q, a, b, s.ip);
        Diverge(m, f, base + |x.funcs| + |y.funcs|, y.context, b, env, fuel, t);
      }
      OutLater(m, f, s, k, t, fuel);
    }
  }

  lemma {:induction false} DivergeUnary(m: Module, f: nat, base: nat, c: Context, op: UnaryOp, a: Expr,
                                        env: Env, fuel: nat, s: State)
    requires var e := Unary(op, a);
             && Fits(m) && WellFormed(c) && Ready(m, f, c, FreeVars(e), env, s) && Safe(base, c, a)
             && Placed(m, f, base, EmitUnary(base, c, op, a), s.ip) && Eval(e, env, fuel).Timeout?
    ensures M.Run(m, f, s, fuel) == M.OutOfFuel
    decreases fuel, Unary(op, a), 1
  {
    hide Gen, Safe, Ready, FuncsAt, CodeAt, M.Run, Encode;
    var x := Gen(base, c, a);
    var z := EmitUnary(base, c, op, a);
    CodeAtSplit(m[f].code, s.ip, x.code, z.code[|x.code|..]);
    Diverge(m, f, base, c, a, env, fuel, s);
  }

  lemma {:induction false} DivergeTuple(m: Module, f: nat, base: nat, c: Context, e: Expr, env: Env, fuel: nat,
                                        s: State)
    requires e.Tuple? && Fits(m) && WellFormed(c) && Ready(m, f, c, FreeVars(e), env, s) && Safe(base, c, e)
    requires Placed(m, f, base, EmitTuple(base, c, e), s.ip) && Eval(e, env, fuel).Timeout?
    ensures M.Run(m, f, s, fuel) == M.OutOfFuel
    decreases fuel, e, 1
  {
    hide Gen, Rep, Bound, M.Reaches, CodeAt, FuncsAt, M.Run, EvalMembers, Encode, EmitTuple, EmitMembers, FillingTuple,
         M.AllocateTuple, FirstTimeout, SafeMembers;
    var n, ms := e.length, MembersOf(e, e.length);
    var d := Allocate(Allocate(c));
    MembersEvaluate(e, n, env, fuel);
    ChainVars(e, n);
    var j :| 0 <= j < n && FirstTimeout(ms, j, env, fuel);
    TuplePlaced(m, f, base, c, e, s.ip);
    var t := SimulateNewTuple(m, f, c, n, s);
    PrefixKeeps(s.heap, t.heap);
    ReadyKeeps(m, f, c, d, MembersVars(ms, 0), env, s, t, {});
    var vs := seq(n, k requires 0 <= k < n => if k < j then FirstValue(ms, k, env, fuel) else IntV(0));
    FillingTupleStart(m, t.heap, |s.heap|, vs);
    ValuesBefore(ms, j, env, fuel, vs);
    DivergeMembers(m, f, base, d, NewRegister(Allocate(c)), ms, 0, j, e, vs, |s.heap|, env, fuel, t);
    OutLater(m, f, s, 2, t, fuel);
  }

  function FirstValue(ms: seq<Expr>, k: nat, env: Env, fuel: nat): Value
    requires k < |ms|
  {
    if Eval(ms[k], env, fuel).Val? then Eval(ms[k], env, fuel).v else IntV(0)
  }

  lemma ValuesBefore(ms: seq<Expr>, j: nat, env: Env, fuel: nat, vs: seq<Value>)
    requires FirstTimeout(ms, j, env, fuel) && |vs| == |ms| && forall k :: 0 <= k < j ==>
               vs[k] == FirstValue(ms, k, env, fuel)
    ensures forall k :: 0 <= k < j ==> Eval(ms[k], env, fuel) == Val(vs[k])
  {
  }

  /** The members before the one that does not end are stored, and then the machine is busy. */
  lemma {:induction false} DivergeMembers(m: Module, f: nat, base: nat, c: Context, target: Byte, ms: seq<Expr>,
                                          i: nat, j: nat, whole: Expr, vs: seq<Value>, a: nat, env: Env, fuel: nat,
                                          s: State)
    requires Fits(m) && WellFormed(c) && i <= j < |ms| < 0x8000 && (forall m :: m in ms ==> m < whole)
    requires Ready(m, f, c, MembersVars(ms, i), env, s) && SafeMembers(base, c, target, ms, i, whole)
    requires Placed(m, f, base, EmitMembers(base, c, target, ms, i, whole), s.ip)
    requires FirstTimeout(ms, j, env, fuel) && |vs| == |ms| && forall k :: 0 <= k < j ==>
               Eval(ms[k], env, fuel) == Val(vs[k])
    requires target < c.registers && target < |s.regs| && s.regs[target] == M.Ptr(a)
    requires FillingTuple(m, s.heap, a, vs, i)
    ensures M.Run(m, f, s, fuel) == M.OutOfFuel
    decreases fuel, whole, 0, |ms| - i
  {
    hide Grows, Gen, Safe, Rep, Bound, M.Reaches, CodeAt, FuncsAt, M.Run, Eval, FillingTuple, Overwrites, Placed,
         Encode, Ready, Apart;
    assert ms[i] in ms;
    var v := Gen(base, c, ms[i]);
    ReadyFrame(m, f, c, MembersVars(ms, i), env, s);
    MembersPlaced(m, f, base, c, target, ms, i, whole, s.ip);
    if i == j {
      ReadyFewer(m, f, c, MembersVars(ms, i), FreeVars(ms[i]), env, s);
      Diverge(m, f, base, c, ms[i], env, fuel, s);
    } else {
      var k, t := SimulateMember(m, f, base, c, target, ms, i, whole, vs, a, env, fuel, s);
      GrowsVersion(c, v.context);
      DivergeMembers(m, f, base + |v.funcs|, v.context, target, ms, i + 1, j, whole, vs, a, env, fuel, t);
      OutLater(m, f, s, k, t, fuel);
    }
  }

  /** A program that is still evaluating after `fuel` nested calls is still running after `fuel`
      instructions. In particular one that never ends never ends on the machine either, and a
      run that ends means that the source evaluation does. */
  lemma PreservesDivergence(v: Version, e: Expr, fuel: nat)
    requires Compilable(v, e) && Eval(e, Empty, fuel).Timeout? && Framed(v, e)
    ensures Execute(Compile(v, e), fuel) == M.OutOfFuel
  {
    hide Gen, Safe, Rep, M.Reaches, M.Run, Bound, FuncsAt, CodeAt, Framed;
    var m := Compile(v, e);
    CompilableStarts(v, e);
    var s := ProgramStart(v, e);
    Diverge(m, 0, 1, EmptyContext(v), e, Empty, fuel, s);
  }

  /** The machine ends on a compiled program exactly when the program evaluates to a value, unless
      evaluation is stuck on a type error; and then it ends with that value. */
  lemma TerminationAgrees(v: Version, e: Expr)
    requires Compilable(v, e) && Framed(v, e)
    requires forall fuel: nat :: !Eval(e, Empty, fuel).Stuck?
    ensures (exists fuel: nat :: Execute(Compile(v, e), fuel).Done?) <==>
              (exists fuel: nat :: Eval(e, Empty, fuel).Val?)
    ensures forall fuel: nat :: Eval(e, Empty, fuel).Val? ==> Computes(Compile(v, e), Eval(e, Empty, fuel).v)
    ensures forall fuel: nat :: !Execute(Compile(v, e), fuel).Fault?
  {
    hide Gen, Safe, Rep, M.Run, Compilable, M.Enter, Eval, Framed;
    var m := Compile(v, e);
    forall fuel: nat | Eval(e, Empty, fuel).Val? ensures Computes(m, Eval(e, Empty, fuel).v) {
      PreservesSemantics(v, e, fuel);
    }
    forall fuel: nat ensures !Execute(m, fuel).Fault? && (Execute(m, fuel).Done? ==> Eval(e, Empty, fuel).Val?) {
      if Eval(e, Empty, fuel).Timeout? {
        PreservesDivergence(v, e, fuel);
      } else {
        var k, w, h :| ComputesIn(m, Eval(e, Empty, fuel).v, k, w, h);
      }
    }
    if fuel: nat :| Execute(m, fuel).Done? { assert Eval(e, Empty, fuel).Val?; }
    if fuel: nat :| Eval(e, Empty, fuel).Val? {
      var k, w, h :| ComputesIn(m, Eval(e, Empty, fuel).v, k, w, h);
      assert Execute(m, k).Done?;
    }
  }
}
