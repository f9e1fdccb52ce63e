/** The machine as it runs: a loop that reads bytes at an instruction pointer, updates the
    registers of its frame and the heap in place, and calls itself for a call instruction. Every
    method is proved against module Machine. */
module Interpreter {
  import opened Wrappers
  import opened Syntax
  import opened Bytecode
  import opened Machine

  /** The memory that outlives a frame. */
  class Memory {
    var objects: Heap

    constructor ()
      ensures objects == []
    {
      objects := [];
    }
  }

  // ----- Reading operands -----

  method ReadU8(code: seq<Byte>, at: nat) returns (value: Byte, next: nat)
    requires at < |code|
    ensures value == code[at] && next == at + 1
  {
    return code[at], at + 1;
  }

  /** A byte widened before it is shifted into place. */
  function Wide(code: seq<Byte>, at: nat): nat
    requires at < |code|
  {
    code[at]
  }

  method ReadU16(code: seq<Byte>, at: nat) returns (value: nat, next: nat)
    requires at + 2 <= |code|
    ensures value == Operand(code, at, 2) && next == at + 2
  {
    OperandBytes(code, at);
    return Wide(code, at) + 0x100 * Wide(code, at + 1), at + 2;
  }

  method ReadU32(code: seq<Byte>, at: nat) returns (value: nat, next: nat)
    requires at + 4 <= |code|
    ensures value == Operand(code, at, 4) && next == at + 4
  {
    OperandBytes(code, at);
    return Wide(code, at) + 0x100 * Wide(code, at + 1) + 0x1_0000 * Wide(code, at + 2)
      + 0x100_0000 * Wide(code, at + 3), at + 4;
  }

  method ReadU64(code: seq<Byte>, at: nat) returns (value: nat, next: nat)
    requires at + 8 <= |code|
    ensures value == Operand(code, at, 8) && next == at + 8
  {
    OperandBytes(code, at);
    return Wide(code, at) + 0x100 * Wide(code, at + 1) + 0x1_0000 * Wide(code, at + 2) + 0x100_0000 * Wide(code, at + 3)
           + 0x1_0000_0000 * Wide(code, at + 4) + 0x100_0000_0000 * Wide(code, at + 5)
           + 0x1_0000_0000_0000 * Wide(code, at + 6) + 0x100_0000_0000_0000 * Wide(code, at + 7), at + 8;
  }

  lemma {:induction false} OperandStep(code: seq<Byte>, at: nat, width: nat)
    requires 0 < width && at + width <= |code|
    ensures Operand(code, at, width) == Wide(code, at) + 256 * Operand(code, at + 1, width - 1)
  {
    assert code[at..at + width][1..] == code[at + 1..at + 1 + (width - 1)];
  }

  lemma OperandBytes(code: seq<Byte>, at: nat)
    ensures at + 2 <= |code| ==> Operand(code, at, 2) == Wide(code, at) + 0x100 * Wide(code, at + 1)
    ensures at + 4 <= |code| ==>
              Operand(code, at, 4) == Wide(code, at) + 0x100 * Wide(code, at + 1) + 0x1_0000 * Wide(code, at + 2)
              + 0x100_0000 * Wide(code, at + 3)
    ensures at + 8 <= |code| ==>
              Operand(code, at, 8) == Wide(code, at) + 0x100 * Wide(code, at + 1) + 0x1_0000 * Wide(code, at + 2)
              + 0x100_0000 * Wide(code, at + 3)
                                      + 0x1_0000_0000 * Wide(code, at + 4) + 0x100_0000_0000 * Wide(code, at + 5)
                                      + 0x1_0000_0000_0000 * Wide(code, at + 6)
                                        + 0x100_0000_0000_0000 * Wide(code, at + 7)
  {
    hide Operand;
    if at + 2 <= |code| {
      OperandStep(code, at, 2);
      OperandStep(code, at + 1, 1);
      OperandNone(code, at + 2);
    }
    if at + 4 <= |code| {
      OperandStep(code, at, 4);
      OperandStep(code, at + 1, 3);
      OperandStep(code, at + 2, 2);
      OperandStep(code, at + 3, 1);
      OperandNone(code, at + 4);
    }
    if at + 8 <= |code| {
      OperandStep(code, at, 8);
      OperandStep(code, at + 1, 7);
      OperandStep(code, at + 2, 6);
      OperandStep(code, at + 3, 5);
      OperandStep(code, at + 4, 4);
      OperandStep(code, at + 5, 3);
      OperandStep(code, at + 6, 2);
      OperandStep(code, at + 7, 1);
      OperandNone(code, at + 8);
    }
  }

  lemma OperandNone(code: seq<Byte>, at: nat)
    requires at <= |code|
    ensures Operand(code, at, 0) == 0
  {
  }

  /** Reads the instruction at `ip`, if all its bytes are part of the code. */
  method ReadInstr(code: seq<Byte>, ip: int) returns (f: Fetched)
    ensures f == Fetch(code, ip)
  {
    hide Operand;
    if !(0 <= ip < |code|) || ip + InstrSize(code[ip]) > |code| { return OutOfCode; }
    var op, at := ReadU8(code, ip);
    var a: Byte, b: Byte, c: Byte, n: nat := 0, 0, 0, 0;
    if op == OP_LOADI_8 {
      n, at := ReadU8(code, at);
      a, at := ReadU8(code, at);
      return Fetched(LoadImmediate(n, a), at - ip);
    } else if op == OP_LOADI_16 {
      n, at := ReadU16(code, at);
      a, at := ReadU8(code, at);
      return Fetched(LoadImmediate(n, a), at - ip);
    } else if op == OP_LOADI_32 {
      n, at := ReadU32(code, at);
      a, at := ReadU8(code, at);
      return Fetched(LoadImmediate(n, a), at - ip);
    } else if op == OP_LOADI_64 {
      n, at := ReadU64(code, at);
      a, at := ReadU8(code, at);
      return Fetched(LoadImmediate(n, a), at - ip);
    } else if op == OP_RET {
      return Fetched(Ret, 1);
    } else if op == OP_LOADA_64 || op == OP_STOREA_64 {
      a, at := ReadU8(code, at);
      n, at := ReadU16(code, at);
      b, at := ReadU8(code, at);
      return Fetched(if op == OP_LOADA_64 then LoadSlot(a, Signed16(n), b) else StoreSlot(a, Signed16(n), b), at - ip);
    } else if op == OP_JMP {
      n, at := ReadU16(code, at);
      return Fetched(Jump(Signed16(n)), at - ip);
    } else if op == OP_JZ {
      a, at := ReadU8(code, at);
      n, at := ReadU16(code, at);
      return Fetched(JumpIfZero(a, Signed16(n)), at - ip);
    } else if op == OP_NEW_CLOSURE || op == OP_NEW_TUPLE || op == OP_NEG || op == OP_MOV {
      a, at := ReadU8(code, at);
      b, at := ReadU8(code, at);
      return Fetched(if op == OP_NEW_CLOSURE then NewClosure(a, b) else if op == OP_NEW_TUPLE then NewTuple(a, b)
                     else if op == OP_NEG then Negate(a, b) else Move(a, b), at - ip);
    } else if op == OP_CALL || op == OP_ADD || op == OP_SUB || op == OP_MUL || op == OP_EQ {
      a, at := ReadU8(code, at);
      b, at := ReadU8(code, at);
      c, at := ReadU8(code, at);
      return Fetched(if op == OP_CALL then Call(a, b, c)
                     else Arithmetic(if op == OP_ADD then Add else if op == OP_SUB then Sub
                                     else if op == OP_MUL then Mul else Eq, a, b, c), at - ip);
    }
    return Fetched(Unknown, 1);
  }

  // ----- Executing -----

  method SetTo(registers: array<Word>, dst: Byte, w: Word) returns (ok: bool)
    modifies registers
    ensures ok == (dst < registers.Length)
    ensures registers[..] == if ok then old(registers[..])[dst := w] else old(registers[..])
  {
    ok := dst < registers.Length;
    if ok { registers[dst] := w; }
  }

  /** Executes an instruction that stays in this frame; `next` is where the following one is. */
  method ExecuteLocal(m: Module, i: Instr, next: int, registers: array<Word>, memory: Memory, ghost s: State)
    returns (ip: int, ok: bool)
    requires !i.Call? && !i.Ret? && !i.Unknown?
    requires s.regs == registers[..] && s.heap == memory.objects
    modifies registers, memory
    ensures Execute(m, i, next, s) == if ok then Next(State(ip, registers[..], memory.objects)) else Bad
  {
    ip, ok := next, false;
    var n := registers.Length;
    match i
    case LoadImmediate(value, dst) =>
      if value < 0x1_0000_0000_0000_0000 { ok := SetTo(registers, dst, Num(value)); }
    case LoadSlot(src, slot, dst) =>
      if src < n {
        var w := Load(m, memory.objects, registers[src], slot);
        if w.Some? { ok := SetTo(registers, dst, w.value); }
      }
    case StoreSlot(obj, slot, src) =>
      if obj < n && src < n {
        var h := Store(memory.objects, registers[obj], slot, registers[src]);
        if h.Some? { memory.objects := h.value; ok := true; }
      }
    case NewClosure(funcReg, dst) =>
      if funcReg < n {
        var f := FunctionId(m, registers[funcReg]);
        if f.Some? {
          if m[f.value].closure == [] {
            ok := SetTo(registers, dst, Static(f.value));
          } else {
            ok := SetTo(registers, dst, Ptr(|memory.objects|));
            memory.objects := memory.objects + [AllocateClosure(f.value, |m[f.value].closure|)];
          }
        }
      }
    case NewTuple(lenReg, dst) =>
      if lenReg < n && registers[lenReg].Num? {
        var size := registers[lenReg].n;
        ok := SetTo(registers, dst, Ptr(|memory.objects|));
        memory.objects := memory.objects + [AllocateTuple(size)];
      }
    case Arithmetic(op, l, r, dst) =>
      if l < n && r < n {
        var w := ArithmeticResult(op, registers[l], registers[r]);
        if w.Some? { ok := SetTo(registers, dst, w.value); }
      }
    case Negate(src, dst) =>
      if src < n && registers[src].Num? {
        ok := SetTo(registers, dst, Num((0x1_0000_0000_0000_0000 - registers[src].n) % 0x1_0000_0000_0000_0000));
      }
    case Jump(off) => ip, ok := next + off, true;
    case JumpIfZero(src, off) =>
      if src < n {
        ip, ok := if registers[src] == Num(0) then next + off else next, true;
      }
    case Move(src, dst) =>
      if src < n { ok := SetTo(registers, dst, registers[src]); }
  }

  /** Runs function `f` for at most `fuel` instructions. */
  method EvaluateCode(m: Module, f: nat, closure: Word, arg: Word, memory: Memory, fuel: nat) returns (r: Result)
    requires f < |m|
    modifies memory
    ensures r == Evaluate(m, f, closure, arg, old(memory.objects), fuel)
    ensures r.Done? ==> r.heap == memory.objects
    decreases fuel
  {
    hide Execute, Fetch, FunctionId, CalleeOf, Frame;
    var code, count := m[f].code, m[f].registerCount;
    if count < 2 { return Fault; }
    var registers := NewFrame(count, closure, arg);
    var ip: int, left: nat := 0, fuel;
    ghost var goal := Evaluate(m, f, closure, arg, memory.objects, fuel);
    while left > 0
      invariant left <= fuel && registers.Length == count
      invariant Loop(m, f, State(ip, registers[..], memory.objects), left) == goal
    {
      left := left - 1;
      ghost var s := State(ip, registers[..], memory.objects);
      var fetched := ReadInstr(code, ip);
      if fetched.OutOfCode? { return Fault; }
      var i, next := fetched.instr, ip + fetched.size;
      if i.Ret? || i.Unknown? {
        HaltResult(m, f, s, i, next, left + 1);
        var result := m[f].resultRegister;
        if result >= count { return Fault; }
        return Done(registers[result], memory.objects, left);
      } else if i.Call? {
        CallSize(code, ip);
        var callee := Callee(m, i, registers, memory);
        CallResult(m, f, s, i, next, left + 1);
        if callee.None? { return Fault; }
        r := EvaluateCode(m, callee.value, registers[i.funcReg], registers[i.argReg], memory, left);
        if !r.Done? { return; }
        registers[i.dst] := r.value;
        ip, left := next, r.fuel;
      } else {
        var ok;
        ip, ok := ExecuteLocal(m, i, next, registers, memory, s);
        LocalResult(m, f, s, i, next, left + 1, ok, State(ip, registers[..], memory.objects));
        if !ok { return Fault; }
      }
    }
    return OutOfFuel;
  }

  /** The registers of a new call. */
  method NewFrame(count: nat, closure: Word, arg: Word) returns (registers: array<Word>)
    requires count >= 2
    ensures fresh(registers) && registers.Length == count && registers[..] == Frame(count, closure, arg)
  {
    registers := new Word[count](_ => Num(0));
    registers[0], registers[1] := closure, arg;
    assert registers[..] == Frame(count, closure, arg);
  }

  /** The function a call instruction calls, if its operands are in order. */
  function CalleeOf(m: Module, i: Instr, regs: seq<Word>, heap: Heap): Option<nat>
    requires i.Call?
  {
    if i.funcReg >= |regs| || i.argReg >= |regs| || i.dst >= |regs| then None else
    match Load(m, heap, regs[i.funcReg], 0)
    case None => None
    case Some(w) => FunctionId(m, w)
  }

  method Callee(m: Module, i: Instr, registers: array<Word>, memory: Memory) returns (f: Option<nat>)
    requires i.Call?
    ensures f == CalleeOf(m, i, registers[..], memory.objects)
  {
    var n := registers.Length;
    if i.funcReg >= n || i.argReg >= n || i.dst >= n { return None; }
    var w := Load(m, memory.objects, registers[i.funcReg], 0);
    if w.None? { return None; }
    f := FunctionId(m, w.value);
  }

  lemma CallSize(code: seq<Byte>, ip: int)
    ensures Fetch(code, ip).Fetched? && Fetch(code, ip).instr.Call? ==> Fetch(code, ip).size == 4
  {
  }

  lemma HaltResult(m: Module, f: nat, s: State, i: Instr, next: int, fuel: nat)
    requires f < |m| && fuel > 0 && next >= s.ip
    requires Fetch(m[f].code, s.ip) == Fetched(i, next - s.ip) && (i.Ret? || i.Unknown?)
    ensures Loop(m, f, s, fuel) == if m[f].resultRegister < |s.regs| then
            Done(s.regs[m[f].resultRegister], s.heap, fuel - 1) else Fault
  {
  }

  lemma LocalResult(m: Module, f: nat, s: State, i: Instr, next: int, fuel: nat, ok: bool, t: State)
    requires f < |m| && fuel > 0 && next >= s.ip && Fetch(m[f].code, s.ip) == Fetched(i, next - s.ip)
    requires Execute(m, i, next, s) == if ok then Next(t) else Bad
    ensures Loop(m, f, s, fuel) == if ok then Loop(m, f, t, fuel - 1) else Fault
  {
    hide Execute, Fetch;
  }

  lemma CallResult(m: Module, f: nat, s: State, i: Instr, next: int, fuel: nat)
    requires f < |m| && fuel > 0 && i.Call? && next == s.ip + 4 && Fetch(m[f].code, s.ip) == Fetched(i, 4)
    ensures match CalleeOf(m, i, s.regs, s.heap)
            case None => Loop(m, f, s, fuel) == Fault
            case Some(g) =>
              && g < |m| && i.funcReg < |s.regs| && i.argReg < |s.regs| && i.dst < |s.regs|
              && var r := Evaluate(m, g, s.regs[i.funcReg], s.regs[i.argReg], s.heap, fuel - 1);
                 Loop(m, f, s, fuel) == if r.Done? then
                 Loop(m, f, State(next, s.regs[i.dst := r.value], r.heap), r.fuel) else r
  {
    hide Fetch;
  }
}
