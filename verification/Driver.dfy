/** From the source expression to the result: check, compile, and if there were no errors, run. */
module Driver {
  import opened Wrappers
  import opened Syntax
  import opened Semantics
  import M = Machine
  import opened Codegen
  import opened Rejections
  import opened Frames
  import opened Representation
  import opened Preservation
  import opened Divergence
  import opened PlainPrograms
  import opened TypeCells
  import opened Typing
  import opened TypeSafety
  import opened Analysis
  import opened Definitions
  import opened TypeChecker
  import opened Grammar
  import Lexer
  import opened Source
  import Compiler
  import Interpreter

  lemma Outcome(v: Version, e: Expr, n: nat, fuel: nat)
    requires Eval(e, Empty, n).Val? && Computes(Compile(v, e), Eval(e, Empty, n).v)
    ensures var r := Execute(Compile(v, e), fuel);
            r.OutOfFuel? || (r.Done? && Rep(Compile(v, e), r.heap, Eval(e, Empty, n).v, r.value))
  {
    hide Rep, M.Enter, Gen, Eval;
    var k, w, h :| ComputesIn(Compile(v, e), Eval(e, Empty, n).v, k, w, h);
    assert Execute(Compile(v, e), fuel) == if fuel < k then M.OutOfFuel else M.Done(w, h, fuel - k);
  }

  /** What a version of the compiler needs of a program: that every operator is supported and that
      the program fits the bytecode; as written, also that names, branches and tuples are tame and
      that there is room for a call. */
  predicate Accepted(v: Version, e: Expr) {
    Plain(v, e) && Framed(v, e) && Fits(Compile(v, e))
  }

  /** Running a program as the driver does, on the machine as it is written. */
  function Run(m: M.Module, fuel: nat): M.Result
    requires |m| > 0
  {
    M.Evaluate(m, 0, M.Num(0), M.Num(0), [], fuel)
  }

  /** Every instruction that is executed gets operands of the kind it is for: what is called is a
      closure, and what is tested is 0 or 1. */
  ghost predicate StepsSound(m: M.Module, fuel: nat)
    requires |m| > 0
  {
    forall g: nat, s: M.State | M.VisitsCall(m, 0, M.Num(0), M.Num(0), [], fuel, g, s) :: M.Sound(m, g, s)
  }

  /** A run of a typed program: no error, no fault, every instruction on operands of its kind, and if
      it ends, the value of the program, of its type. */
  ghost predicate RunsWell(v: Version, e: Expr, t: Type, fuel: nat) {
    var m := Compile(v, e);
    var r, o := Run(m, fuel), Eval(e, Empty, fuel);
    && CompileErrors(v, e) == 0 && !r.Fault? && StepsSound(m, fuel)
    && (r.Done? ==> o.Val? && ValueHas(o.v, t) && Rep(m, r.heap, o.v, r.value))
    && (o.Timeout? ==> r.OutOfFuel?)
  }

  /** A run that passes the checks is the run without them, and sound. */
  lemma CheckedRun(m: M.Module, fuel: nat)
    requires |m| > 0 && !Execute(m, fuel).Fault?
    ensures Run(m, fuel) == Execute(m, fuel) && StepsSound(m, fuel)
  {
    hide M.Run, M.Loop, M.Visits, M.Sound;
    M.CheckedCall(m, 0, M.Num(0), M.Num(0), [], fuel);
    forall g: nat, s: M.State | M.VisitsCall(m, 0, M.Num(0), M.Num(0), [], fuel, g, s) ensures M.Sound(m, g, s) {
      M.VisitedIsSound(m, 0, M.State(0, M.Frame(m[0].registerCount, M.Num(0), M.Num(0)), []), fuel, g, s);
    }
  }

  /** A strictly typed program runs without faults, and what it returns is its value, of its type. */
  lemma TypedProgramRuns(v: Version, e: Expr, t: Type, fuel: nat)
    requires HasStrictType(NoNames, e, t) && Accepted(v, e)
    ensures RunsWell(v, e, t, fuel)
  {
    hide Rep, M.Enter, Gen, Eval, HasType, HasStrictType, ValueHas, Compilable, Supported, Tame, Fits, Compile,
         CompileErrors, Framed, Run, Execute, StepsSound;
    StrictIsTyped(NoNames, e, t);
    TypedIsClosed(NoNames, e, t);
    PlainIsCompilable(v, e);
    CompilableHasNoErrors(v, e);
    TypesAreSafe(e, Empty, fuel, NoNames, t);
    if Eval(e, Empty, fuel).Timeout? {
      PreservesDivergence(v, e, fuel);
    } else {
      PreservesSemantics(v, e, fuel);
      Outcome(v, e, fuel, fuel);
    }
    CheckedRun(Compile(v, e), fuel);
  }

  lemma CompilableHasNoErrors(v: Version, e: Expr)
    requires Compilable(v, e)
    ensures CompileErrors(v, e) == 0
  {
  }

  /** How a program ends. */
  datatype Ending = CheckerLost | TypeErrors | CompilerErrors | Ran(result: M.Result)

  /** Checks, compiles and runs a program for at most `fuel` instructions. The checker turns a
      program away exactly if it has no type, and the compiler exactly if it does not compile; only
      a program that neither turns away is run. The checker is lost exactly at a definition that does
      not settle. A program that is strictly typed and that the compiler is ready for never faults, and
      executes no instruction on operands of another kind: it either needs more instructions or returns
      the representation of its value, which has its type. As meant, the checker always comes back, and
      the compiler is ready for every program with supported operators that fits the bytecode. */
  method RunProgram(version: Version, e: Expr, fuel: nat)
    returns (ending: Ending, ghost type_: Type, ghost reached: seq<Definition>)
    ensures Comes(version, DefinitionsOf(e), [], reached, !ending.CheckerLost?)
    ensures ending.Ran? ==>
              && HasType(NoNames, e, type_) && CompileErrors(version, e) == 0 && Compiles(version, e)
              && ending.result == Run(Compile(version, e), fuel)
    ensures ending.CompilerErrors? ==>
              HasType(NoNames, e, type_) && CompileErrors(version, e) > 0 && !Compiles(version, e)
    ensures ending.TypeErrors? ==> !Typable(e)
    ensures version.AsMeant? || Flat(e, true) ==> !ending.CheckerLost?
    ensures forall t :: HasStrictType(NoNames, e, t) && Accepted(version, e) ==>
              && (ending.CheckerLost? || ending.Ran?) && RunsWell(version, e, t, fuel)
  {
    hide Rep, Plain, M.Evaluate, Gen, Eval, Ranked, HasType, HasStrictType, Resolve, RunsWell, Accepted, Compile,
         CompileErrors, Compiles, Typable, Comes, DefinitionsOf;
    type_ := TInt;
    ProgramCompiles(version, e);
    forall t | HasStrictType(NoNames, e, t) && Accepted(version, e)
      ensures Typable(e) && RunsWell(version, e, t, fuel) && CompileErrors(version, e) == 0
    {
      StrictIsTyped(NoNames, e, t);
      HasTypeTypable(e, t);
      TypedProgramRuns(version, e, t, fuel);
      NoErrors(version, e, t, fuel);
    }
    var checker := new CheckContext(version);
    var t, halts := checker.GetExpressionType(e);
    reached := checker.reached;
    if !halts { return CheckerLost, type_, reached; }
    if checker.errors > 0 { return TypeErrors, type_, reached; }
    type_ := Resolve(checker.cells, checker.rank, _ => TInt, t);
    assert TypeOf(checker.cells, checker.rank, t, type_);
    var errors := new Compiler.ErrorList();
    var builder, id := Compiler.CompileProgram(e, errors, version);
    if errors.count > 0 { return CompilerErrors, type_, reached; }
    var memory := new Interpreter.Memory();
    var result := Interpreter.EvaluateCode(builder.functions, id, M.Num(0), M.Num(0), memory, fuel);
    ending := Ran(result);
  }

  lemma NoErrors(v: Version, e: Expr, t: Type, fuel: nat)
    requires RunsWell(v, e, t, fuel)
    ensures CompileErrors(v, e) == 0
  {
  }

  /** Reads a program from its text and runs it. Whatever expression the text is printed from, in
      the sense of `Source.SourceRoundTrip`, is the one that is run. */
  method RunSource(version: Version, g: Grammar, b: string, fuel: nat)
    returns (reading: Reading, ending: Option<Ending>)
    ensures reading.Read? <==> Front(g, b).Some?
    ensures ending.Some? <==> reading.Read?
    ensures reading.Read? ==>
              var e, end := reading.e, ending.value;
              && Front(g, b) == Some(e)
              && (end.TypeErrors? ==> !Typable(e))
              && (end.CompilerErrors? ==> Typable(e) && CompileErrors(version, e) > 0 && !Compiles(version, e))
              && (end.Ran? ==> Typable(e) && CompileErrors(version, e) == 0 && Compiles(version, e)
                               && end.result == Run(Compile(version, e), fuel))
              && (version.AsMeant? || Flat(e, true) ==> !end.CheckerLost?)
              && forall t :: HasStrictType(NoNames, e, t) && Accepted(version, e) ==>
                   && (end.CheckerLost? || end.Ran?) && RunsWell(version, e, t, fuel)
  {
    hide Front, HasType, HasStrictType, Accepted, RunsWell, Compile, CompileErrors, Compiles, M.Evaluate, Typable, Flat;
    reading := ReadSource(g, b);
    if !reading.Read? {
      NotRead(g, b, reading);
      return reading, None;
    }
    ghost var type_, reached;
    var end: Ending;
    end, type_, reached := RunProgram(version, reading.e, fuel);
    if end.Ran? || end.CompilerErrors? { HasTypeTypable(reading.e, type_); }
    ending := Some(end);
  }

  lemma NotRead(g: Grammar, b: string, reading: Reading)
    requires match reading
             case Read(e) => Front(g, b) == Some(e)
             case LexerLost => !Lexer.Closed(b, 0)
             case LexerErrors => Lexer.Closed(b, 0) && Lexer.ErrorRuns(b, 0, false) > 0
             case ParserErrors => Front(g, b) == None
    ensures !reading.Read? ==> Front(g, b) == None
  {
  }
}
