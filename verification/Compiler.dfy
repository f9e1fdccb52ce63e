/** The compiler itself: one pass over the expression that appends to a code buffer, goes back to
    fill in jump offsets, and grows the bindings, the closure and the module as it goes. Every
    method is proved to do what module Codegen says, for the compiler as it is written and as it is
    meant. */
module Compiler {
  import opened Wrappers
  import opened Division
  import opened Syntax
  import opened Bytecode
  import M = Machine
  import opened Codegen

  class ErrorList {
    var count: nat

    constructor ()
      ensures count == 0
    {
      count := 0;
    }

    method Add()
      modifies this
      ensures count == old(count) + 1
    {
      count := count + 1;
    }
  }

  /** The functions of a program, in the order in which their compilation began. */
  class ModuleBuilder {
    var functions: seq<M.Function>

    constructor ()
      ensures functions == []
    {
      functions := [];
    }

    /** Reserves a place for a function whose code is yet to come. */
    method AddFunction() returns (id: nat)
      modifies this
      ensures id == |old(functions)| && |functions| == id + 1 && functions[..id] == old(functions)
    {
      id := |functions|;
      functions := functions + [M.Function([], 0, [], 0)];
    }
  }

  class CompileContext {
    /** The code buffer up to the furthest byte written, and the position of the next write. */
    var code: seq<Byte>
    var write: nat
    /** The next register, as the 8-bit counter the compiler keeps, and how many were taken. */
    var integerRegisters: Byte
    var maxRegisters: nat
    var bindings: seq<Binding>
    var bindingTop: nat
    var closureSymbols: seq<Symbol>
    const target: ModuleBuilder
    const errors: ErrorList
    const version: Version

    ghost predicate Valid()
      reads this
    {
      && write <= |code| && bindingTop <= |bindings| && integerRegisters == maxRegisters % 256
    }

    /** Valid, and not in the middle of filling in a jump. */
    ghost predicate AtEnd()
      reads this
    {
      Valid() && write == |code|
    }

    ghost function Scope(): (c: Context)
      reads this
      requires Valid()
      ensures WellFormed(c)
    {
      Context(maxRegisters, bindings, bindingTop, closureSymbols, version)
    }

    constructor (target: ModuleBuilder, errors: ErrorList, version: Version)
      ensures AtEnd() && code == [] && Scope() == EmptyContext(version)
      ensures this.target == target && this.errors == errors && this.version == version
    {
      code, write := [], 0;
      integerRegisters, maxRegisters := 0, 0;
      bindings, bindingTop, closureSymbols := [], 0, [];
      this.target, this.errors, this.version := target, errors, version;
    }

    // ----- Writing code -----

    method WriteCodeU8(value: Byte)
      requires Valid()
      modifies this`code, this`write
      ensures Valid() && write == old(write) + 1
      ensures old(AtEnd()) ==> AtEnd() && code == old(code) + [value]
      ensures old(write) < |old(code)| ==> code == old(code)[old(write) := value]
    {
      code := if write < |code| then code[write := value] else code + [value];
      write := write + 1;
    }

    method WriteCodeU16(value: nat)
      requires Valid() && value < 0x1_0000
      modifies this`code, this`write
      ensures Valid() && write == old(write) + 2
      ensures old(AtEnd()) ==> AtEnd() && code == old(code) + LittleEndian(value, 2)
      ensures old(write) + 2 <= |old(code)| ==>
                code == old(code)[..old(write)] + LittleEndian(value, 2) + old(code)[old(write) + 2..]
    {
      LittleEndianByte(value, 2, 0);
      LittleEndianByte(value, 2, 1);
      Pow256Values();
      WriteCodeU8(value % 256);
      WriteCodeU8(value / 0x100 % 256);
      assert LittleEndian(value, 2) == [value % 256, value / 0x100 % 256];
    }

    method WriteCodeU32(value: nat)
      requires AtEnd() && value < 0x1_0000_0000
      modifies this`code, this`write
      ensures AtEnd() && code == old(code) + LittleEndian(value, 4)
    {
      LittleEndianBytes(value);
      WriteCodeU8(value % 256);
      WriteCodeU8(value / 0x100 % 256);
      WriteCodeU8(value / 0x1_0000 % 256);
      WriteCodeU8(value / 0x100_0000 % 256);
    }

    method WriteCodeU64(value: nat)
      requires AtEnd()
      modifies this`code, this`write
      ensures AtEnd() && code == old(code) + LittleEndian(value, 8)
    {
      LittleEndianBytes(value);
      WriteCodeU8(value % 256);
      WriteCodeU8(value / 0x100 % 256);
      WriteCodeU8(value / 0x1_0000 % 256);
      WriteCodeU8(value / 0x100_0000 % 256);
      WriteCodeU8(value / 0x1_0000_0000 % 256);
      WriteCodeU8(value / 0x100_0000_0000 % 256);
      WriteCodeU8(value / 0x1_0000_0000_0000 % 256);
      WriteCodeU8(value / 0x100_0000_0000_0000 % 256);
    }

    /** Three bytes in a row: an opcode and two registers, or three registers. */
    method WriteOperation(op: Byte, a: Byte, b: Byte)
      requires AtEnd()
      modifies this`code, this`write
      ensures AtEnd() && code == old(code) + [op, a, b]
    {
      WriteCodeU8(op);
      WriteCodeU8(a);
      WriteCodeU8(b);
    }

    method WriteSlotOperation(op: Byte, object_: Byte, slot: nat, reg: Byte)
      requires AtEnd()
      modifies this`code, this`write
      ensures AtEnd() && code == old(code) + ([op, object_] + LittleEndian(slot % 0x1_0000, 2) + [reg])
      ensures op == OP_STOREA_64 ==> code == old(code) + Encode(StoreSlot(object_, slot, reg))
    {
      WriteCodeU8(op);
      WriteCodeU8(object_);
      WriteCodeU16(slot % 0x1_0000);
      WriteCodeU8(reg);
    }

    /** Leaves room for a jump offset, whatever the buffer holds there. */
    method Reserve() returns (at: nat)
      requires AtEnd()
      modifies this`code, this`write
      ensures AtEnd() && at == old(write) && |code| == at + 2 && code[..at] == old(code)
    {
      at := write;
      var low: Byte, high: Byte := *, *;
      code := code + [low, high];
      write := write + 2;
    }

    /** Fills in the offset reserved at `at` so that the jump leads to the end of the code. */
    method Patch(at: nat)
      requires AtEnd() && at + 2 <= write
      modifies this`code, this`write
      ensures AtEnd() && |code| == |old(code)|
      ensures code == old(code)[..at] + LittleEndian((|code| - at - 2) % 0x1_0000, 2) + old(code)[at + 2..]
    {
      var here := write;
      write := at;
      WriteCodeU16((here - at - 2) % 0x1_0000);
      write := here;
    }

    // ----- Registers and bindings -----

    method GetFreeIntRegister() returns (reg: Byte)
      requires Valid()
      modifies this`integerRegisters, this`maxRegisters
      ensures Valid() && reg == NewRegister(old(Scope())) && Scope() == Allocate(old(Scope()))
    {
      reg := integerRegisters;
      integerRegisters := (integerRegisters as int + 1) % 256;
      maxRegisters := maxRegisters + 1;
    }

    method PushBinding(symbol: Symbol, reg: Byte)
      requires Valid()
      modifies this`bindings, this`bindingTop
      ensures Valid() && Scope() == Push(old(Scope()), symbol, reg)
    {
      bindings := if bindingTop == |bindings| then bindings + [Binding(symbol, reg)]
                  else bindings[bindingTop := Binding(symbol, reg)];
      bindingTop := bindingTop + 1;
    }

    method PopBinding()
      requires Valid() && bindingTop > 0
      modifies this`bindingTop
      ensures Valid() && Scope() == Pop(old(Scope()))
    {
      bindingTop := bindingTop - 1;
    }

    /** Ends a function: its record goes to the place reserved for it. */
    method FinishCompile(result: Byte, id: nat)
      requires AtEnd() && id < |target.functions|
      modifies this`code, this`write, target
      ensures target.functions == old(target.functions)[id :=
                M.Function(old(code) + Encode(Ret), FrameSize(version, maxRegisters), closureSymbols, result)]
    {
      WriteCodeU8(OP_RET);
      var registers := if version.AsMeant? && maxRegisters < 2 then 2 else maxRegisters;
      target.functions := target.functions[id := M.Function(code, registers, closureSymbols, result)];
    }

    // ----- Expressions -----

    method WriteLoadLiteral(value: nat) returns (reg: Byte)
      requires AtEnd()
      modifies this
      ensures AtEnd()
      ensures var r := EmitLiteral(old(Scope()), value);
              code == old(code) + r.code && Scope() == r.context && reg == r.reg
    {
      hide Encode;
      reg := GetFreeIntRegister();
      WriteImmediate(value, reg);
    }

    /** The shortest of the four load instructions whose operand can hold the value. */
    method WriteImmediate(value: nat, reg: Byte)
      requires AtEnd()
      modifies this`code, this`write
      ensures AtEnd() && code == old(code) + Encode(LoadImmediate(value, reg))
    {
      hide LittleEndian;
      ghost var c0, le := code, LittleEndian(value, Width(value));
      if value <= 0xFF {
        LittleEndianBytes(value);
        WriteCodeU8(OP_LOADI_8);
        WriteCodeU8(value);
      } else if value <= 0xFFFF {
        WriteCodeU8(OP_LOADI_16);
        WriteCodeU16(value);
      } else if value <= 0xFFFF_FFFF {
        WriteCodeU8(OP_LOADI_32);
        WriteCodeU32(value);
      } else {
        WriteCodeU8(OP_LOADI_64);
        WriteCodeU64(value);
      }
      WriteCodeU8(reg);
      Concat3(c0, [Encode(LoadImmediate(value, reg))[0]], le, [reg]);
    }

    method CompileIdentifierImpl(id: Symbol) returns (reg: Byte)
      requires AtEnd()
      modifies this
      ensures AtEnd()
      ensures var r := EmitIdentifier(old(Scope()), id);
              code == old(code) + r.code && Scope() == r.context && reg == r.reg
    {
      hide LittleEndian, EmitCaptures;
      var i: int := if version.AsWritten? then bindingTop else bindingTop - 1;
      while i >= 0
        invariant -1 <= i <= bindingTop
        invariant FindWritten(Scope(), id) == FindFrom(bindings, if i < |bindings| then i else i - 1, id)
      {
        if i < |bindings| && bindings[i].symbol == id {
          return bindings[i].reg;
        }
        i := i - 1;
      }
      var offset := 0;
      while offset < |closureSymbols| && closureSymbols[offset] != id
        invariant offset <= |closureSymbols| && id !in closureSymbols[..offset]
      {
        offset := offset + 1;
      }
      FirstIndex(closureSymbols, id, offset);
      if offset == |closureSymbols| {
        closureSymbols := closureSymbols + [id];
      }
      reg := GetFreeIntRegister();
      WriteSlotOperation(OP_LOADA_64, 0, offset + 1, reg);
    }

    /** What a compiling method has done since it was called: exactly the emission `r`. */
    twostate predicate Emitted(r: Emit, reg: Byte)
      reads this, target, errors
    {
      && AtEnd() && code == old(code) + r.code && Scope() == r.context && reg == r.reg
      && target.functions == old(target.functions) + r.funcs
      && errors.count == old(errors.count) + r.errors
    }

    method CompileIntegerLiteral(value: U64) returns (reg: Byte)
      requires AtEnd()
      modifies this
      ensures Emitted(EmitLiteral(old(Scope()), value), reg)
    {
      reg := WriteLoadLiteral(value);
    }

    method CompileIdentifier(id: Symbol) returns (reg: Byte)
      requires AtEnd()
      modifies this
      ensures Emitted(EmitIdentifier(old(Scope()), id), reg)
    {
      reg := CompileIdentifierImpl(id);
    }

    /** Compiles a function, then builds its closure in `closureRegister`. */
    method CompileLambdaImpl(param: Symbol, body: Expr, self: Symbol, closureRegister: Byte) returns (reg: Byte)
      requires AtEnd()
      modifies this, target, errors
      ensures Emitted(EmitLambda(|old(target.functions)|, old(Scope()), self, param, body, closureRegister), reg)
      decreases body, 6
    {
      hide Gen, Encode, EmitCaptures, EmitLiteral;
      var id := CompileFunction(param, body, self);
      reg := BuildClosure(id, closureRegister);
    }

    /** The first half of a lambda: compiles its body in a context of its own. Register 0 is
        reserved for the closure, to which a recursive function's own name is bound, and register 1
        for the argument. */
    method CompileFunction(param: Symbol, body: Expr, self: Symbol) returns (id: nat)
      requires AtEnd()
      modifies target, errors
      ensures var child := Gen(|old(target.functions)| + 1, BodyContext(version, self, param), body);
              && id == |old(target.functions)|
              && target.functions == old(target.functions) + ([Finish(child)] + child.funcs)
              && errors.count == old(errors.count) + child.errors
      decreases body, 5
    {
      hide Gen, Encode;
      ghost var before := target.functions;
      ghost var emit := Gen(|before| + 1, BodyContext(version, self, param), body);
      id := target.AddFunction();
      ghost var reserved := target.functions;
      var child := new CompileContext(target, errors, version);
      var ret := child.CompileBody(param, body, self);
      child.FinishCompile(ret, id);
      FillReserved(before, reserved, Finish(emit), emit.funcs);
    }

    /** The body of a function in a new context. */
    method CompileBody(param: Symbol, body: Expr, self: Symbol) returns (ret: Byte)
      requires AtEnd() && code == [] && Scope() == EmptyContext(version)
      modifies this, target, errors
      ensures var child := Gen(|old(target.functions)|, BodyContext(version, self, param), body);
              && AtEnd() && code == child.code && ret == child.reg
              && maxRegisters == child.context.registers && closureSymbols == child.context.closure
              && target.functions == old(target.functions) + child.funcs &&
                 errors.count == old(errors.count) + child.errors
      decreases body, 4
    {
      hide Gen, Encode;
      var selfRegister := GetFreeIntRegister();
      if self != INVALID_SYMBOL {
        PushBinding(self, selfRegister);
      }
      var argRegister := GetFreeIntRegister();
      PushBinding(param, argRegister);
      assert Scope() == BodyContext(version, self, param);
      ret := CompileToScopeEnd(body);
      if self != INVALID_SYMBOL {
        PopBinding();
      }
    }

    /** The second half of a lambda: allocates the closure of the finished function `id` and
        stores what it captures. */
    method BuildClosure(id: nat, closureRegister: Byte) returns (reg: Byte)
      requires AtEnd() && id < |target.functions|
      modifies this
      ensures reg == closureRegister && AtEnd()
      ensures var lit := EmitLiteral(old(Scope()), id);
              var captures := EmitCaptures(lit.context, closureRegister, target.functions[id].closure, 0);
              && code == old(code) + (lit.code + Encode(NewClosure(lit.reg, closureRegister)) + captures.code)
              && Scope() == captures.context
    {
      hide LittleEndian, EmitCaptures, EmitLiteral;
      ghost var c0, lit := code, EmitLiteral(Scope(), id);
      var idReg := WriteLoadLiteral(id);
      WriteOperation(OP_NEW_CLOSURE, idReg, closureRegister);
      ghost var captures := EmitCaptures(lit.context, closureRegister, target.functions[id].closure, 0);
      StoreCaptures(target.functions[id].closure, closureRegister);
      Concat(c0, lit.code, [OP_NEW_CLOSURE, idReg, closureRegister]);
      Concat(c0, lit.code + [OP_NEW_CLOSURE, idReg, closureRegister], captures.code);
      reg := closureRegister;
    }

    method StoreCaptures(closure: seq<Symbol>, closureRegister: Byte)
      requires AtEnd()
      modifies this
      ensures AtEnd()
      ensures var r := EmitCaptures(old(Scope()), closureRegister, closure, 0);
              code == old(code) + r.code && Scope() == r.context
    {
      hide LittleEndian, EmitIdentifier;
      ghost var start, all := code, EmitCaptures(Scope(), closureRegister, closure, 0);
      var i := 0;
      while i < |closure|
        invariant i <= |closure| && AtEnd()
        invariant var rest := EmitCaptures(Scope(), closureRegister, closure, i);
                  code + rest.code == start + all.code && rest.context == all.context
      {
        ghost var soFar, v := code, EmitIdentifier(Scope(), closure[i]);
        var idReg := CompileIdentifierImpl(closure[i]);
        WriteSlotOperation(OP_STOREA_64, closureRegister, i + 1, idReg);
        ghost var store := Encode(StoreSlot(closureRegister, i + 1, v.reg));
        Concat(soFar, v.code, store);
        Concat(soFar, v.code + store, EmitCaptures(v.context, closureRegister, closure, i + 1).code);
        i := i + 1;
      }
    }

    method CompileLambda(param: Symbol, body: Expr) returns (reg: Byte)
      requires AtEnd()
      modifies this, target, errors
      ensures Emitted(EmitLambda(|old(target.functions)|, Allocate(old(Scope())), INVALID_SYMBOL, param, body,
                                 NewRegister(old(Scope()))), reg)
      decreases body, 7
    {
      hide EmitLambda;
      var closureRegister := GetFreeIntRegister();
      reg := CompileLambdaImpl(param, body, INVALID_SYMBOL, closureRegister);
    }

    /** The last part of a definition's scope, which ends with it. */
    method CompileToScopeEnd(body: Expr) returns (reg: Byte)
      requires AtEnd() && bindingTop > 0
      modifies this, target, errors
      ensures var y := Gen(|old(target.functions)|, old(Scope()), body);
              y.context.top > 0 && Emitted(y.(context := Pop(y.context)), reg)
      decreases body, 3
    {
      hide Gen, Encode, Pop;
      ghost var c := Scope();
      ghost var y := Gen(|target.functions|, c, body);
      reg := CompileExpression(body);
      GrowsTop(c, y.context);
      PopBinding();
    }

    method CompileLet(id: Symbol, value: Expr, body: Expr) returns (reg: Byte)
      requires AtEnd()
      modifies this, target, errors
      ensures Emitted(EmitLet(|old(target.functions)|, old(Scope()), id, value, body), reg)
      decreases Let(id, value, body), 1
    {
      hide Gen, Grows, EmitLet, Pop, Encode;
      ghost var c0, f0, x := code, target.functions, Gen(|target.functions|, Scope(), value);
      LetShape(|f0|, Scope(), id, value, body);
      var valueReg := CompileExpression(value);
      PushBinding(id, valueReg);
      ghost var y := Gen(|target.functions|, Scope(), body);
      reg := CompileToScopeEnd(body);
      Concat(c0, x.code, y.code);
      Concat(f0, x.funcs, y.funcs);
    }

    method CompileLetRec(id: Symbol, value: Expr, body: Expr) returns (reg: Byte)
      requires AtEnd()
      modifies this, target, errors
      ensures Emitted(EmitLetRec(|old(target.functions)|, old(Scope()), id, value, body), reg)
      decreases LetRec(id, value, body), 1
    {
      hide Gen, EmitLambda, Grows, Pop, Encode;
      var valueReg := GetFreeIntRegister();
      if !value.Lambda? {
        errors.Add();
        return valueReg;
      }
      ghost var c0, f0 := code, target.functions;
      PushBinding(id, valueReg);
      ghost var d := Scope();
      ghost var x := EmitLambda(|f0|, d, id, value.param, value.body, valueReg);
      var closureReg := CompileLambdaImpl(value.param, value.body, id, valueReg);
      assert bindingTop > 0 by { GrowsTop(d, x.context); }
      ghost var y := Gen(|target.functions|, Scope(), body);
      reg := CompileToScopeEnd(body);
      Concat(c0, x.code, y.code);
      Concat(f0, x.funcs, y.funcs);
    }

    method CompileApply(f: Expr, a: Expr) returns (reg: Byte)
      requires AtEnd()
      modifies this, target, errors
      ensures Emitted(EmitApply(|old(target.functions)|, old(Scope()), f, a), reg)
      decreases Apply(f, a), 1
    {
      hide Gen, Grows, Encode, EmitApply;
      ghost var c0, x := code, Gen(|target.functions|, Scope(), f);
      ApplyShape(|target.functions|, Scope(), f, a);
      var functionReg, argReg := CompileOperands(f, a, Apply(f, a));
      ghost var operands := code[|c0|..];
      reg := GetFreeIntRegister();
      WriteCall(functionReg, argReg, reg);
      Concat(c0, operands, Encode(Call(functionReg, argReg, reg)));
    }

    /** Two expressions in a row: function and argument, or left and right operand. */
    method CompileOperands(l: Expr, r: Expr, ghost whole: Expr) returns (left: Byte, right: Byte)
      requires AtEnd() && l < whole && r < whole
      modifies this, target, errors
      ensures var x := Gen(|old(target.functions)|, old(Scope()), l);
              var y := Gen(|old(target.functions)| + |x.funcs|, x.context, r);
              && AtEnd() && Scope() == y.context && left == x.reg && right == y.reg
              && code == old(code) + (x.code + y.code)
              && target.functions == old(target.functions) + (x.funcs + y.funcs)
              && errors.count == old(errors.count) + x.errors + y.errors
      decreases whole, 0
    {
      hide Gen, Grows;
      ghost var c0, f0, x := code, target.functions, Gen(|target.functions|, Scope(), l);
      left := CompileExpression(l);
      ghost var y := Gen(|target.functions|, Scope(), r);
      right := CompileExpression(r);
      Concat(c0, x.code, y.code);
      Concat(f0, x.funcs, y.funcs);
    }

    method WriteCall(function_: Byte, arg: Byte, out: Byte)
      requires AtEnd()
      modifies this`code, this`write
      ensures AtEnd() && code == old(code) + Encode(Call(function_, arg, out))
    {
      WriteOperation(OP_CALL, function_, arg);
      WriteCodeU8(out);
    }

    method CompileBinary(op: BinaryOp, l: Expr, r: Expr) returns (reg: Byte)
      requires AtEnd()
      modifies this, target, errors
      ensures Emitted(EmitBinary(|old(target.functions)|, old(Scope()), op, l, r), reg)
      decreases Binary(op, l, r), 1
    {
      hide Gen, Grows, BinaryCode, EmitBinary;
      ghost var c0, x := code, Gen(|target.functions|, Scope(), l);
      BinaryShape(|target.functions|, Scope(), op, l, r);
      var left, right := CompileOperands(l, r, Binary(op, l, r));
      ghost var operands := code[|c0|..];
      reg := GetFreeIntRegister();
      WriteBinary(op, left, right, reg);
      Concat(c0, operands, BinaryCode(op, left, right, reg));
    }

    method WriteBinary(op: BinaryOp, left: Byte, right: Byte, out: Byte)
      requires AtEnd()
      modifies this`code, this`write, errors
      ensures AtEnd() && code == old(code) + BinaryCode(op, left, right, out)
      ensures errors.count == old(errors.count) + if op.Slash? then 1 else 0
    {
      match op {
        case Plus => WriteCodeU8(OP_ADD);
        case Minus => WriteCodeU8(OP_SUB);
        case Equals => WriteCodeU8(OP_EQ);
        case Star => WriteCodeU8(OP_MUL);
        case Slash => errors.Add();
      }
      WriteOperation(left, right, out);
    }

    method CompileUnary(op: UnaryOp, a: Expr) returns (reg: Byte)
      requires AtEnd()
      modifies this, target, errors
      ensures Emitted(EmitUnary(|old(target.functions)|, old(Scope()), op, a), reg)
      decreases Unary(op, a), 1
    {
      hide Gen, Grows;
      ghost var c0, x := code, Gen(|target.functions|, Scope(), a);
      var arg := CompileExpression(a);
      reg := GetFreeIntRegister();
      match op {
        case UnaryMinus => WriteCodeU8(OP_NEG);
        case UnaryPlus => errors.Add();
      }
      WriteCodeU8(arg);
      WriteCodeU8(reg);
      Concat(c0, x.code, code[|c0 + x.code|..]);
    }

    method CompileIf(t: Expr, a: Expr, b: Expr) returns (reg: Byte)
      requires AtEnd()
      modifies this, target, errors
      ensures Emitted(EmitIf(|old(target.functions)|, old(Scope()), t, a, b), reg)
      decreases If(t, a, b), 1
    {
      hide Gen, Encode, LittleEndian, MoveCode, Grows, EmitIf, IfCode, Branches, ResultOf;
      ghost var c0, f0 := code, target.functions;
      ghost var x := Gen(|f0|, Scope(), t);
      ghost var y := Gen(|f0| + |x.funcs|, Branches(x.context), a);
      IfShape(|f0|, Scope(), t, a, b);
      var endTarget;
      reg, endTarget := CompileThen(t, a, b);
      ghost var c3, z := code, Gen(|target.functions|, Scope(), b);
      var falseReg := CompileExpression(b);
      WriteMove(falseReg, reg);
      ghost var c4, otherwise := code, z.code + MoveCode(z.reg, reg);
      Concat(c3, z.code, MoveCode(z.reg, reg));
      Patch(endTarget);
      PatchedEnd(c0, x.code, x.reg, y.code + MoveCode(y.reg, reg), c3, otherwise, c4, code);
      Concat(f0, x.funcs + y.funcs, z.funcs);
    }

    /** Test and then-branch of an `if`. The jump of the test is filled in, the one at the end of
        the branch is not. */
    method CompileThen(t: Expr, a: Expr, ghost b: Expr) returns (reg: Byte, endTarget: nat)
      requires AtEnd()
      modifies this, target, errors
      ensures var x := Gen(|old(target.functions)|, old(Scope()), t);
              var y := Gen(|old(target.functions)| + |x.funcs|, Branches(x.context), a);
              var then_ := y.code + MoveCode(y.reg, reg);
              && AtEnd() && Scope() == y.context && reg == ResultOf(x.context, y.reg) && |code| == endTarget + 2
              && code[..endTarget] == old(code) + x.code + Encode(JumpIfZero(x.reg, |then_| + 3)) + then_ + [OP_JMP]
              && target.functions == old(target.functions) + (x.funcs + y.funcs)
              && errors.count == old(errors.count) + x.errors + y.errors
      decreases If(t, a, b), 0
    {
      hide Gen, Encode, LittleEndian, Grows, MoveCode, Branches, ResultOf;
      ghost var c0, f0, x := code, target.functions, Gen(|target.functions|, Scope(), t);
      var falseTarget := CompileTest(t);
      ghost var c1, y := code, Gen(|target.functions|, Branches(Scope()), a);
      reg, endTarget := CompileArm(a);
      Concat(f0, x.funcs, y.funcs);
      PatchTest(falseTarget, c0, x.code, x.reg, y.code + MoveCode(y.reg, reg), c1);
    }

    /** Fills in the jump of a test, from the code before it and the branch since. */
    method PatchTest(at: nat, ghost before: seq<Byte>, ghost test: seq<Byte>, ghost reg: Byte,
                     ghost then_: seq<Byte>, ghost c1: seq<Byte>)
      requires AtEnd() && |c1| == |before| + |test| + 4 && at == |c1| - 2 && c1[..at] == before + test + [OP_JZ, reg]
      requires |code| == |c1| + |then_| + 3 && code[..|code| - 2] == c1 + then_ + [OP_JMP]
      modifies this`code, this`write
      ensures AtEnd() && |code| == |old(code)|
      ensures code[..|code| - 2] == before + test + Encode(JumpIfZero(reg, |then_| + 3)) + then_ + [OP_JMP]
    {
      hide LittleEndian;
      ghost var c2 := code;
      Patch(at);
      PatchedTest(before, test, reg, then_, c1, c2, code);
    }

    /** The test of an `if` and the jump to the else branch, whose offset is to be filled in. */
    method CompileTest(t: Expr) returns (falseTarget: nat)
      requires AtEnd()
      modifies this, target, errors
      ensures var x := Gen(|old(target.functions)|, old(Scope()), t);
              && AtEnd() && Scope() == x.context && |code| == falseTarget + 2
              && code[..falseTarget] == old(code) + x.code + [OP_JZ, x.reg]
              && target.functions == old(target.functions) + x.funcs
              && errors.count == old(errors.count) + x.errors
      decreases t, 3
    {
      hide Gen, Grows;
      var testReg := CompileExpression(t);
      falseTarget := StartJump([OP_JZ, testReg]);
    }

    /** The then-branch of an `if` and the jump to the end, whose offset is to be filled in. As
        meant, the branch is copied to a register taken for the result. */
    method CompileArm(a: Expr) returns (reg: Byte, endTarget: nat)
      requires AtEnd()
      modifies this, target, errors
      ensures var y := Gen(|old(target.functions)|, Branches(old(Scope())), a);
              && AtEnd() && Scope() == y.context && reg == ResultOf(old(Scope()), y.reg) && |code| == endTarget + 2
              && code[..endTarget] == old(code) + (y.code + MoveCode(y.reg, reg)) + [OP_JMP]
              && target.functions == old(target.functions) + y.funcs
              && errors.count == old(errors.count) + y.errors
      decreases a, 3
    {
      hide Gen, Grows, Encode;
      ghost var c0, y := code, Gen(|target.functions|, Branches(Scope()), a);
      var out: Byte := 0;
      if version.AsMeant? { out := GetFreeIntRegister(); }
      var value := CompileExpression(a);
      reg := if version.AsMeant? then out else value;
      WriteMove(value, reg);
      Concat(c0, y.code, MoveCode(y.reg, reg));
      endTarget := StartJump([OP_JMP]);
    }

    /** A jump whose offset is not known yet. */
    method StartJump(head: seq<Byte>) returns (at: nat)
      requires AtEnd() && 1 <= |head| <= 2
      modifies this`code, this`write
      ensures AtEnd() && at == |old(code)| + |head| && |code| == at + 2 && code[..at] == old(code) + head
    {
      WriteCodeU8(head[0]);
      if |head| == 2 { WriteCodeU8(head[1]); }
      at := Reserve();
    }

    method WriteMove(from: Byte, to: Byte)
      requires AtEnd()
      modifies this`code, this`write
      ensures AtEnd() && code == old(code) + MoveCode(from, to)
    {
      if from != to {
        WriteOperation(OP_MOV, from, to);
      }
    }

    method CompileTuple(e: Expr) returns (reg: Byte)
      requires AtEnd() && e.Tuple?
      modifies this, target, errors
      ensures Emitted(EmitTuple(|old(target.functions)|, old(Scope()), e), reg)
      decreases e, 1
    {
      hide Gen, LittleEndian, EmitMembers, EmitLiteral, Compiled;
      ghost var c0, lit, base := code, EmitLiteral(Scope(), e.length), |target.functions|;
      var lenReg := WriteLoadLiteral(e.length);
      reg := GetFreeIntRegister();
      WriteOperation(OP_NEW_TUPLE, lenReg, reg);
      ghost var ms := Compiled(version, e);
      ghost var members := EmitMembers(base, Scope(), reg, ms, 0, e);
      StoreMembers(e, reg);
      Concat(c0, lit.code, [OP_NEW_TUPLE, lenReg, reg]);
      Concat(c0, lit.code + [OP_NEW_TUPLE, lenReg, reg], members.code);
      MembersRegister(base, lit.context, reg, ms, e);
    }

    /** Compiles and stores the members of a tuple; as written, the first one every time. */
    method StoreMembers(e: Expr, out: Byte)
      requires AtEnd() && e.Tuple?
      modifies this, target, errors
      ensures Emitted(EmitMembers(|old(target.functions)|, old(Scope()), out, Compiled(version, e), 0, e), out)
      decreases e, 0
    {
      hide Gen, Encode, Grows, Compiled;
      ghost var start, funcs, errs := code, target.functions, errors.count;
      var ms := Compiled(version, e);
      ghost var all := EmitMembers(|funcs|, Scope(), out, ms, 0, e);
      var i := 0;
      while i < |ms|
        invariant i <= |ms| && AtEnd()
        invariant var rest := EmitMembers(|target.functions|, Scope(), out, ms, i, e);
                  && code + rest.code == start + all.code && rest.context == all.context
                  && target.functions + rest.funcs == funcs + all.funcs
                  && errors.count + rest.errors == errs + all.errors && all.reg == out
      {
        assert ms[i] in ms;
        ghost var soFar, fs := code, target.functions;
        ghost var v := Gen(|fs|, Scope(), ms[i]);
        var memberReg := CompileExpression(ms[i]);
        WriteSlotOperation(OP_STOREA_64, out, i, memberReg);
        ghost var store := Encode(StoreSlot(out, i, v.reg));
        ghost var rest := EmitMembers(|fs| + |v.funcs|, v.context, out, ms, i + 1, e);
        Concat(soFar, v.code, store);
        Concat(soFar, v.code + store, rest.code);
        Concat(fs, v.funcs, rest.funcs);
        i := i + 1;
      }
    }

    method CompileExpression(e: Expr) returns (reg: Byte)
      requires AtEnd()
      modifies this, target, errors
      ensures Emitted(Gen(|old(target.functions)|, old(Scope()), e), reg)
      decreases e, 2
    {
      hide EmitLambda, EmitApply, EmitLet, EmitLetRec, EmitIf, EmitBinary, EmitUnary, EmitTuple, EmitLiteral,
           EmitIdentifier;
      match e {
        case Literal(value) => reg := CompileIntegerLiteral(value);
        case True => reg := CompileIntegerLiteral(1);
        case False => reg := CompileIntegerLiteral(0);
        case Identifier(id) => reg := CompileIdentifier(id);
        case Lambda(param, body) => reg := CompileLambda(param, body);
        case Apply(f, a) => reg := CompileApply(f, a);
        case Let(id, value, body) => reg := CompileLet(id, value, body);
        case LetRec(id, value, body) => reg := CompileLetRec(id, value, body);
        case If(t, a, b) => reg := CompileIf(t, a, b);
        case Binary(op, l, r) => reg := CompileBinary(op, l, r);
        case Unary(op, a) => reg := CompileUnary(op, a);
        case Tuple(_, _, _) => reg := CompileTuple(e);
        case TupleFinal(_) => errors.Add(); reg := 0;
        case Error => reg := 0;
        case Invalid => errors.Add(); reg := 0;
      }
    }
  }

  /** Compiles a whole program into an empty module. */
  method CompileProgram(e: Expr, errors: ErrorList, version: Version) returns (builder: ModuleBuilder, id: nat)
    modifies errors
    ensures fresh(builder) && id == 0
    ensures builder.functions == Compile(version, e)
    ensures errors.count == old(errors.count) + CompileErrors(version, e)
  {
    hide Gen;
    builder := new ModuleBuilder();
    id := builder.AddFunction();
    var context := new CompileContext(builder, errors, version);
    var result := context.CompileExpression(e);
    assert context.code == Gen(1, EmptyContext(version), e).code;
    context.FinishCompile(result, id);
  }

  lemma FillReserved(before: seq<M.Function>, reserved: seq<M.Function>, fn: M.Function, later: seq<M.Function>)
    requires |reserved| == |before| + 1 && reserved[..|before|] == before
    ensures (reserved + later)[|before| := fn] == before + ([fn] + later)
  {
  }

  lemma GrowsTop(c: Context, d: Context)
    requires WellFormed(c) && Grows(c, d)
    ensures d.top == c.top
  {
  }

  lemma Concat<T>(a: seq<T>, b: seq<T>, c: seq<T>)
    ensures a + b + c == a + (b + c)
  {
  }

  lemma Concat3<T>(a: seq<T>, b: seq<T>, c: seq<T>, d: seq<T>)
    ensures a + b + c + d == a + (b + c + d)
  {
    Concat(a, b, c);
    Concat(a, b + c, d);
  }

  lemma Reassociate(c0: seq<Byte>, x: seq<Byte>, test: seq<Byte>, y: seq<Byte>, jump: seq<Byte>, z: seq<Byte>)
    ensures c0 + x + test + y + jump + z == c0 + (x + test + y + jump + z)
  {
    Concat(c0, x, test);
    Concat(c0, x + test, y);
    Concat(c0, x + test + y, jump);
    Concat(c0, x + test + y + jump, z);
  }

  /** The code after the jump of the test has been filled in: `c1` was the code when its hole was
      reserved, `c2` when the hole of the jump at its end was. */
  lemma PatchedTest(c0: seq<Byte>, x: seq<Byte>, reg: Byte, y: seq<Byte>, c1: seq<Byte>, c2: seq<Byte>, code: seq<Byte>)
    requires |c1| == |c0| + |x| + 4 && c1[..|c1| - 2] == c0 + x + [OP_JZ, reg]
    requires |c2| == |c1| + |y| + 3 && c2[..|c2| - 2] == c1 + y + [OP_JMP]
    requires var at := |c1| - 2;
             code == c2[..at] + LittleEndian((|c2| - at - 2) % 0x1_0000, 2) + c2[at + 2..]
    ensures |code| == |c2| && code[..|c2| - 2] == c0 + x + Encode(JumpIfZero(reg, |y| + 3)) + y + [OP_JMP]
  {
    hide LittleEndian;
    var at := |c1| - 2;
    var le := LittleEndian((|y| + 3) % 0x1_0000, 2);
    assert c2[..at] == c1[..at] by { assert c2[..|c2| - 2][..at] == c1[..at]; }
    assert c2[at + 2..|c2| - 2] == y + [OP_JMP] by { assert c2[..|c2| - 2][at + 2..] == y + [OP_JMP]; }
    assert code[..|c2| - 2] == c1[..at] + le + (y + [OP_JMP]);
    Concat(c0 + x, [OP_JZ, reg], le);
    Concat(c0 + x + ([OP_JZ, reg] + le), y, [OP_JMP]);
  }

  /** The code after the jump at the end of the then-branch has been filled in. */
  lemma PatchedEnd(c0: seq<Byte>, x: seq<Byte>, reg: Byte, y: seq<Byte>, c3: seq<Byte>, otherwise: seq<Byte>,
                   c4: seq<Byte>, code: seq<Byte>)
    requires |c3| >= 2 && c3[..|c3| - 2] == c0 + x + Encode(JumpIfZero(reg, |y| + 3)) + y + [OP_JMP] &&
             c4 == c3 + otherwise
    requires var at := |c3| - 2;
             code == c4[..at] + LittleEndian((|c4| - at - 2) % 0x1_0000, 2) + c4[at + 2..]
    ensures code == c0 + IfCode(x, reg, y, otherwise)
  {
    hide LittleEndian;
    var test := Encode(JumpIfZero(reg, |y| + 3));
    var head := c0 + x + test + y;
    var le := LittleEndian(|otherwise| % 0x1_0000, 2);
    assert c4[..|c3| - 2] == head + [OP_JMP] && c4[|c3|..] == otherwise;
    Concat(head, [OP_JMP], le);
    Reassociate(c0, x, test, y, Encode(Jump(|otherwise|)), otherwise);
  }

  lemma MembersRegister(base: nat, c: Context, target: Byte, ms: seq<Expr>, whole: Expr)
    requires WellFormed(c) && forall m :: m in ms ==> m < whole
    ensures EmitMembers(base, Allocate(c), target, ms, 0, whole).reg == target
  {
  }

  lemma {:induction false} FirstIndex(symbols: seq<Symbol>, id: Symbol, i: nat)
    requires i <= |symbols| && id !in symbols[..i] && (i < |symbols| ==> symbols[i] == id)
    ensures IndexOf(symbols, id) == i
  {
    if i > 0 {
      assert symbols[0] == symbols[..i][0];
      assert symbols[1..][..i - 1] == symbols[..i][1..];
      FirstIndex(symbols[1..], id, i - 1);
    }
  }

  /** A byte of an operand is what masking and shifting yields. */
  lemma {:induction false} LittleEndianByte(value: nat, width: nat, k: nat)
    requires k < width
    ensures LittleEndian(value, width)[k] == value / Pow256(k) % 256
  {
    if k > 0 {
      LittleEndianByte(value / 256, width - 1, k - 1);
      DivideTwice(value, 256, Pow256(k - 1));
    }
  }

  lemma LittleEndianBytes(value: nat)
    ensures LittleEndian(value, 1) == [value % 256]
    ensures LittleEndian(value, 4) == [value % 256, value / 0x100 % 256, value / 0x1_0000 % 256,
                                       value / 0x100_0000 % 256]
    ensures LittleEndian(value, 8) ==
            [value % 256, value / 0x100 % 256, value / 0x1_0000 % 256, value / 0x100_0000 % 256,
             value / 0x1_0000_0000 % 256, value / 0x100_0000_0000 % 256, value / 0x1_0000_0000_0000 % 256,
             value / 0x100_0000_0000_0000 % 256]
  {
    hide LittleEndian, Pow256;
    Pow256Values();
    LittleEndianByte(value, 1, 0);
    forall k | 0 <= k < 4 ensures LittleEndian(value, 4)[k] == value / Pow256(k) % 256 {
      LittleEndianByte(value, 4, k);
    }
    forall k | 0 <= k < 8 ensures LittleEndian(value, 8)[k] == value / Pow256(k) % 256 {
      LittleEndianByte(value, 8, k);
    }
  }
}
