/** Whole programs: the compiled module computes the value of the source. */
module Preservation {
  import opened Wrappers
  import opened Syntax
  import opened Semantics
  import opened Bytecode
  import M = Machine
  import opened Codegen
  import opened Safety
  import opened Frames
  import opened ClosureConversion
  import opened Representation
  import opened Simulation

  /** Running a compiled program the way the driver does, with null closure and argument, and with
      the checks. */
  function Execute(m: M.Module, fuel: nat): M.Result
    requires |m| > 0
  {
    M.Enter(m, 0, M.Num(0), M.Num(0), [], fuel)
  }

  /** A closed program the compiler accepts, whose module stays within the sizes of the bytecode
      and which contains none of the events that `Safe` excludes. */
  predicate Compilable(v: Version, e: Expr) {
    FreeVars(e) == {} && Safe(1, EmptyContext(v), e) && CompileErrors(v, e) == 0 && Fits(Compile(v, e))
  }

  /** The module never does anything but compute `v`: any run that is given enough fuel ends with
      the same word, which represents `v`, and with less fuel it neither faults nor ends. */
  ghost predicate Computes(m: M.Module, v: Value) {
    |m| > 0 && exists k: nat, w: M.Word, h: M.Heap :: ComputesIn(m, v, k, w, h)
  }

  ghost predicate ComputesIn(m: M.Module, v: Value, k: nat, w: M.Word, h: M.Heap)
    requires |m| > 0
  {
    && Rep(m, h, v, w)
    && forall fuel: nat :: Execute(m, fuel) == if fuel < k then M.OutOfFuel else M.Done(w, h, fuel - k)
  }

  /** A call that returns after `k` instructions runs out of any smaller allowance. */
  lemma ReturnsExactly(m: M.Module, g: nat, closure: M.Word, arg: M.Word, h: M.Heap, k: nat, w: M.Word, t: M.Heap,
                       fuel: nat)
    requires g < |m| && m[g].registerCount >= 2 && Returns(m, g, closure, arg, h, k, w, t)
    ensures M.Enter(m, g, closure, arg, h, fuel) == if fuel < k then M.OutOfFuel else M.Done(w, t, fuel - k)
  {
    hide M.Run;
    var s := M.State(0, M.Frame(m[g].registerCount, closure, arg), h);
    assert M.Enter(m, g, closure, arg, h, k + 0) == M.Done(w, t, 0);
    if fuel < k {
      if !M.Run(m, g, s, fuel).OutOfFuel? { M.RunMonotonic(m, g, s, fuel, k - fuel); }
    } else {
      assert M.Enter(m, g, closure, arg, h, k + (fuel - k)) == M.Done(w, t, fuel - k);
    }
  }

  /** What a module computes it computes without the checks of the machine as well. */
  lemma ComputesUnchecked(m: M.Module, v: Value, fuel: nat)
    requires Computes(m, v)
    ensures M.Evaluate(m, 0, M.Num(0), M.Num(0), [], fuel) == Execute(m, fuel)
  {
    hide Rep, M.Enter, M.Evaluate;
    var k, w, h :| ComputesIn(m, v, k, w, h);
    assert !Execute(m, fuel).Fault?;
    M.CheckedCall(m, 0, M.Num(0), M.Num(0), [], fuel);
  }

  lemma ElementsOf(symbols: seq<Symbol>)
    ensures symbols != [] ==> Elements(symbols) != {}
  {
    if symbols != [] { assert symbols[0] in Elements(symbols); }
  }

  lemma ComputesRoom(m: M.Module, v: Value)
    requires Computes(m, v)
    ensures m[0].registerCount >= 2
  {
    hide Rep, M.Run;
    var k, w, h :| ComputesIn(m, v, k, w, h);
    assert Execute(m, k) == M.Done(w, h, 0);
  }

  /** The state in which the driver starts a program. */
  lemma ProgramStart(v: Version, e: Expr) returns (s: State)
    requires CompileErrors(v, e) == 0 && Fits(Compile(v, e)) && Compile(v, e)[0].closure == [] &&
             Compile(v, e)[0].registerCount >= 2
    ensures s == M.State(0, M.Frame(Compile(v, e)[0].registerCount, M.Num(0), M.Num(0)), [])
    ensures Ready(Compile(v, e), 0, EmptyContext(v), {}, Empty, s)
    ensures Placed(Compile(v, e), 0, 1, Gen(1, EmptyContext(v), e), 0)
  {
    hide Gen, Rep, M.Run, Bound, FuncsAt, CodeAt;
    var m := Compile(v, e);
    s := M.State(0, M.Frame(m[0].registerCount, M.Num(0), M.Num(0)), []);
    FinishPlaced(m[0].code, Gen(1, EmptyContext(v), e).code);
    ProgramFunctions(v, e);
  }

  lemma ProgramFunctions(v: Version, e: Expr)
    ensures FuncsAt(Compile(v, e), 1, Gen(1, EmptyContext(v), e).funcs)
  {
  }

  /** A program whose code brings a value to its result register returns that value. */
  lemma ProgramReturns(v: Version, e: Expr, over: set<Byte>, u: Value, s: State, k: nat, t: State)
    returns (w: M.Word)
    requires CompileErrors(v, e) == 0 && Compile(v, e)[0].registerCount >= 2
    requires s == M.State(0, M.Frame(Compile(v, e)[0].registerCount, M.Num(0), M.Num(0)), [])
    requires var r := Gen(1, EmptyContext(v), e); Ran(Compile(v, e), 0, 0, over, |r.code|, r.reg, u, s, k, t)
    ensures Returns(Compile(v, e), 0, M.Num(0), M.Num(0), [], k + 1, w, t.heap) && Rep(Compile(v, e), t.heap, u, w)
  {
    hide Gen, Rep, M.Reaches, M.Run, FuncsAt, CodeAt;
    var m := Compile(v, e);
    FinishPlaced(m[0].code, Gen(1, EmptyContext(v), e).code);
    ReturnStep(m, 0, M.Num(0), M.Num(0), [], k, t);
    w := t.regs[m[0].resultRegister];
  }

  lemma ReturnsComputes(m: M.Module, v: Value, k: nat, w: M.Word, h: M.Heap)
    requires |m| > 0 && m[0].registerCount >= 2 && Returns(m, 0, M.Num(0), M.Num(0), [], k, w, h)
    ensures Computes(m, v) <==> Rep(m, h, v, w)
  {
    hide Rep, M.Enter;
    forall n: nat ensures Execute(m, n) == if n < k then M.OutOfFuel else M.Done(w, h, n - k) {
      ReturnsExactly(m, 0, M.Num(0), M.Num(0), [], k, w, h, n);
    }
    if Rep(m, h, v, w) { assert ComputesIn(m, v, k, w, h); }
    if Computes(m, v) { ComputedWord(m, v, k); }
  }

  /** A module computes at most what one of its runs returns. */
  lemma ComputedWord(m: M.Module, v: Value, fuel: nat)
    requires Computes(m, v) && Execute(m, fuel).Done?
    ensures Rep(m, Execute(m, fuel).heap, v, Execute(m, fuel).value)
  {
    hide Rep, M.Enter;
    var k, w, h :| ComputesIn(m, v, k, w, h);
    assert Execute(m, fuel) == M.Done(w, h, fuel - k);
  }

  lemma NothingCapturedByProgram(v: Version, e: Expr)
    requires FreeVars(e) == {} && Sees(1, EmptyContext(v), e)
    ensures Compile(v, e)[0].closure == []
  {
    hide Gen, Sees;
    ClosureIsFreeVars(1, EmptyContext(v), e);
    ElementsOf(Compile(v, e)[0].closure);
  }

  lemma CompilableStarts(v: Version, e: Expr)
    requires Compilable(v, e)
    ensures Safe(1, EmptyContext(v), e) && FreeVars(e) == {} && CompileErrors(v, e) == 0 && Fits(Compile(v, e))
    ensures Compile(v, e)[0].closure == [] && (Compile(v, e)[0].registerCount >= 2 <==> Framed(v, e))
  {
    hide Gen, Safe, Sees, Framed;
    FrameExact(v, e);
    SafeSees(1, EmptyContext(v), e);
    NothingCapturedByProgram(v, e);
  }

  lemma SimulateProgram(v: Version, e: Expr, fuel: nat) returns (k: nat, w: M.Word, h: M.Heap)
    requires Compilable(v, e) && Eval(e, Empty, fuel).Val? && Framed(v, e)
    ensures Returns(Compile(v, e), 0, M.Num(0), M.Num(0), [], k, w, h)
    ensures Rep(Compile(v, e), h, Eval(e, Empty, fuel).v, w)
  {
    hide Gen, Safe, Rep, Ran, Ready, Placed, Returns, Compilable, Overwrites, Fits, Compile, Framed;
    CompilableStarts(v, e);
    var s := ProgramStart(v, e);
    var k0, t := Simulate(Compile(v, e), 0, 1, EmptyContext(v), e, Empty, fuel, s);
    w := ProgramReturns(v, e, Overwrites(1, EmptyContext(v), e), Eval(e, Empty, fuel).v, s, k0, t);
    k, h := k0 + 1, t.heap;
  }

  /** Semantic preservation. A compilable program that evaluates to a value compiles to a module that
      computes it, as meant always, and as written if and only if its frame has room for the two
      registers every call sets. */
  lemma PreservesSemantics(v: Version, e: Expr, fuel: nat)
    requires Compilable(v, e) && Eval(e, Empty, fuel).Val?
    ensures Computes(Compile(v, e), Eval(e, Empty, fuel).v) <==> Framed(v, e)
  {
    hide Gen, Safe, Rep, M.Run, Compilable, Returns, Framed;
    var m, value := Compile(v, e), Eval(e, Empty, fuel).v;
    CompilableStarts(v, e);
    if Framed(v, e) {
      var k, w, h := SimulateProgram(v, e, fuel);
      ReturnsComputes(m, value, k, w, h);
    }
    if Computes(m, value) { ComputesRoom(m, value); }
  }

  /** Without that room the machine faults at once, whatever the program is. */
  lemma UnframedFaults(v: Version, e: Expr, fuel: nat)
    requires FreeVars(e) == {} && CompileErrors(v, e) == 0 && !Framed(v, e)
    ensures Execute(Compile(v, e), fuel) == M.Fault
    ensures M.Evaluate(Compile(v, e), 0, M.Num(0), M.Num(0), [], fuel) == M.Fault
  {
    hide Gen, Framed;
    FrameExact(v, e);
  }
}
