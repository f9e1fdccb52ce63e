/** The bytecode: little-endian operands, opcode numbers in the order of opcodes.inc, and the
    decoding the machine performs at an instruction pointer. */
module Bytecode {
  import opened Division

  type Byte = x: int | 0 <= x < 256

  const OP_RET: Byte := 0
  const OP_LOADI_8: Byte := 1
  const OP_LOADI_16: Byte := 2
  const OP_LOADI_32: Byte := 3
  const OP_LOADI_64: Byte := 4
  const OP_LOADA_64: Byte := 5
  const OP_STOREA_64: Byte := 6
  const OP_NEW_CLOSURE: Byte := 7
  const OP_NEW_TUPLE: Byte := 8
  const OP_CALL: Byte := 9
  const OP_ADD: Byte := 10
  const OP_SUB: Byte := 11
  const OP_MUL: Byte := 12
  const OP_NEG: Byte := 13
  const OP_EQ: Byte := 14
  const OP_JMP: Byte := 15
  const OP_JZ: Byte := 16
  const OP_MOV: Byte := 17

  datatype Arith = Add | Sub | Mul | Eq

  datatype Instr =
    | Ret
    | LoadImmediate(value: nat, dst: Byte)
    | LoadSlot(src: Byte, slot: int, dst: Byte)
    | StoreSlot(object_: Byte, slot: int, src: Byte)
    | NewClosure(funcReg: Byte, dst: Byte)
    | NewTuple(lenReg: Byte, dst: Byte)
    | Call(funcReg: Byte, argReg: Byte, dst: Byte)
    | Arithmetic(op: Arith, left: Byte, right: Byte, dst: Byte)
    | Negate(src: Byte, dst: Byte)
    | Jump(offset: int)
    | JumpIfZero(src: Byte, offset: int)
    | Move(src: Byte, dst: Byte)
    | Unknown

  /** An instruction and the number of bytes it occupies. */
  datatype Fetched = Fetched(instr: Instr, size: nat) | OutOfCode

  // ----- Little-endian operands -----

  /** The low `width` bytes of `value`, least significant first. */
  function LittleEndian(value: nat, width: nat): (bs: seq<Byte>)
    ensures |bs| == width
  {
    if width == 0 then [] else [value % 256] + LittleEndian(value / 256, width - 1)
  }

  function FromLittleEndian(bs: seq<Byte>): nat {
    if bs == [] then 0 else bs[0] + 256 * FromLittleEndian(bs[1..])
  }

  function Pow256(n: nat): (p: nat)
    ensures p > 0
  {
    if n == 0 then 1 else 256 * Pow256(n - 1)
  }

  /** Splitting off the lowest byte of a remainder. */
  lemma LowByte(value: nat, p: nat)
    requires p > 0
    ensures value % (256 * p) == value % 256 + 256 * (value / 256 % p)
  {
    var q := value / 256;
    var k, r := q / p, q % p;
    assert q == k * p + r;
    assert value == k * (256 * p) + (256 * r + value % 256);
    QuotientAndRemainder(value, 256 * p, k, 256 * r + value % 256);
  }

  /** Reading an operand back gives the value modulo its width, and so the value if it fits. */
  lemma {:induction false} LittleEndianRoundTrip(value: nat, width: nat)
    ensures FromLittleEndian(LittleEndian(value, width)) == value % Pow256(width)
    ensures value < Pow256(width) ==> FromLittleEndian(LittleEndian(value, width)) == value
  {
    if width > 0 {
      LittleEndianRoundTrip(value / 256, width - 1);
      var rest := LittleEndian(value / 256, width - 1);
      assert LittleEndian(value, width)[1..] == rest;
      LowByte(value, Pow256(width - 1));
    }
    if value < Pow256(width) { QuotientAndRemainder(value, Pow256(width), 0, value); }
  }

  /** A 16-bit operand reinterpreted as `int16_t`. */
  function Signed16(n: nat): int {
    if n % 0x1_0000 < 0x8000 then n % 0x1_0000 else n % 0x1_0000 - 0x1_0000
  }

  lemma Pow256Values()
    ensures Pow256(0) == 1 && Pow256(1) == 0x100 && Pow256(2) == 0x1_0000 && Pow256(3) == 0x100_0000
    ensures Pow256(4) == 0x1_0000_0000 && Pow256(5) == 0x100_0000_0000 && Pow256(6) == 0x1_0000_0000_0000
    ensures Pow256(7) == 0x100_0000_0000_0000 && Pow256(8) == 0x1_0000_0000_0000_0000
  {
    assert Pow256(2) == 256 * Pow256(1) && Pow256(4) == 256 * Pow256(3) && Pow256(6) == 256 * Pow256(5);
    assert Pow256(8) == 256 * Pow256(7);
  }

  // ----- Decoding -----

  ghost predicate CodeAt(code: seq<Byte>, ip: nat, bytes: seq<Byte>) {
    ip + |bytes| <= |code| && forall j :: 0 <= j < |bytes| ==> code[ip + j] == bytes[j]
  }

  lemma CodeAtSplit(code: seq<Byte>, ip: nat, a: seq<Byte>, b: seq<Byte>)
    ensures CodeAt(code, ip, a + b) <==> CodeAt(code, ip, a) && CodeAt(code, ip + |a|, b)
  {
    if CodeAt(code, ip, a + b) {
      forall j | 0 <= j < |a| ensures code[ip + j] == a[j] { assert (a + b)[j] == a[j]; }
      forall j | 0 <= j < |b| ensures code[ip + |a| + j] == b[j] {
        assert (a + b)[|a| + j] == b[j];
      }
    }
    if CodeAt(code, ip, a) && CodeAt(code, ip + |a|, b) {
      forall j | 0 <= j < |a + b| ensures code[ip + j] == (a + b)[j] {
        if j >= |a| { assert code[ip + |a| + (j - |a|)] == b[j - |a|]; }
      }
    }
  }

  lemma CodeAtEnd(code: seq<Byte>, ip: nat, bytes: seq<Byte>)
    requires CodeAt(code, ip, bytes)
    ensures ip + |bytes| <= |code|
  {
  }

  lemma ByteAt(code: seq<Byte>, ip: nat, bytes: seq<Byte>, j: nat)
    requires CodeAt(code, ip, bytes) && j < |bytes|
    ensures ip + j < |code| && code[ip + j] == bytes[j]
  {
  }

  function Operand(code: seq<Byte>, at: nat, width: nat): nat
    requires at + width <= |code|
  {
    FromLittleEndian(code[at..at + width])
  }

  /** The length in bytes of the instruction that starts with opcode `op`; 1 for a byte that is
      no opcode. */
  function InstrSize(op: Byte): nat {
    if op == OP_LOADI_8 || op == OP_NEG || op == OP_MOV || op == OP_NEW_CLOSURE
       || op == OP_NEW_TUPLE || op == OP_JMP then 3
    else if op == OP_LOADI_16 || op == OP_CALL || op == OP_ADD || op == OP_SUB || op == OP_MUL
            || op == OP_EQ || op == OP_JZ then 4
    else if op == OP_LOADA_64 || op == OP_STOREA_64 then 5
    else if op == OP_LOADI_32 then 6
    else if op == OP_LOADI_64 then 10
    else 1
  }

  function Fetch(code: seq<Byte>, ip: int): Fetched {
    if !(0 <= ip < |code|) || ip + InstrSize(code[ip]) > |code| then OutOfCode else
    var op := code[ip];
    Fetched(
      if op == OP_RET then Ret
      else if op == OP_LOADI_8 then LoadImmediate(code[ip + 1], code[ip + 2])
      else if op == OP_LOADI_16 then LoadImmediate(Operand(code, ip + 1, 2), code[ip + 3])
      else if op == OP_LOADI_32 then LoadImmediate(Operand(code, ip + 1, 4), code[ip + 5])
      else if op == OP_LOADI_64 then LoadImmediate(Operand(code, ip + 1, 8), code[ip + 9])
      else if op == OP_LOADA_64 then
        LoadSlot(code[ip + 1], Signed16(Operand(code, ip + 2, 2)), code[ip + 4])
      else if op == OP_STOREA_64 then
        StoreSlot(code[ip + 1], Signed16(Operand(code, ip + 2, 2)), code[ip + 4])
      else if op == OP_NEW_CLOSURE then NewClosure(code[ip + 1], code[ip + 2])
      else if op == OP_NEW_TUPLE then NewTuple(code[ip + 1], code[ip + 2])
      else if op == OP_CALL then Call(code[ip + 1], code[ip + 2], code[ip + 3])
      else if op == OP_ADD then Arithmetic(Add, code[ip + 1], code[ip + 2], code[ip + 3])
      else if op == OP_SUB then Arithmetic(Sub, code[ip + 1], code[ip + 2], code[ip + 3])
      else if op == OP_MUL then Arithmetic(Mul, code[ip + 1], code[ip + 2], code[ip + 3])
      else if op == OP_NEG then Negate(code[ip + 1], code[ip + 2])
      else if op == OP_EQ then Arithmetic(Eq, code[ip + 1], code[ip + 2], code[ip + 3])
      else if op == OP_JMP then Jump(Signed16(Operand(code, ip + 1, 2)))
      else if op == OP_JZ then JumpIfZero(code[ip + 1], Signed16(Operand(code, ip + 2, 2)))
      else if op == OP_MOV then Move(code[ip + 1], code[ip + 2])
      else Unknown,
      InstrSize(op))
  }

  // ----- Encoding -----

  function Width(value: nat): nat {
    if value <= 0xFF then 1 else if value <= 0xFFFF then 2
    else if value <= 0xFFFF_FFFF then 4 else 8
  }

  /** The bytes the compiler writes for an instruction. Opcodes and byte operands come first,
      the 16-bit operands are truncated as the casts in the compiler truncate them. */
  function Encode(i: Instr): seq<Byte> {
    match i
    case Ret => [OP_RET]
    case LoadImmediate(value, dst) =>
      var w := Width(value);
      [if w == 1 then OP_LOADI_8 else if w == 2 then OP_LOADI_16
       else if w == 4 then OP_LOADI_32 else OP_LOADI_64] + LittleEndian(value, w) + [dst]
    case LoadSlot(src, slot, dst) => [OP_LOADA_64, src] + LittleEndian(slot % 0x1_0000, 2) + [dst]
    case StoreSlot(obj, slot, src) => [OP_STOREA_64, obj] + LittleEndian(slot % 0x1_0000, 2) + [src]
    case NewClosure(f, dst) => [OP_NEW_CLOSURE, f, dst]
    case NewTuple(n, dst) => [OP_NEW_TUPLE, n, dst]
    case Call(f, a, dst) => [OP_CALL, f, a, dst]
    case Arithmetic(op, l, r, dst) =>
      [match op case Add => OP_ADD case Sub => OP_SUB case Mul => OP_MUL case Eq => OP_EQ, l, r, dst]
    case Negate(src, dst) => [OP_NEG, src, dst]
    case Jump(off) => [OP_JMP] + LittleEndian(off % 0x1_0000, 2)
    case JumpIfZero(src, off) => [OP_JZ, src] + LittleEndian(off % 0x1_0000, 2)
    case Move(src, dst) => [OP_MOV, src, dst]
    case Unknown => []
  }

  /** The instructions whose operands survive encoding: 64-bit immediates, `int16_t` offsets. */
  predicate Encodable(i: Instr) {
    match i
    case LoadImmediate(value, _) => value < 0x1_0000_0000_0000_0000
    case LoadSlot(_, slot, _) => -0x8000 <= slot < 0x8000
    case StoreSlot(_, slot, _) => -0x8000 <= slot < 0x8000
    case Jump(off) => -0x8000 <= off < 0x8000
    case JumpIfZero(_, off) => -0x8000 <= off < 0x8000
    case Unknown => false
    case _ => true
  }

  lemma OperandRoundTrip(code: seq<Byte>, at: nat, value: nat, width: nat)
    requires CodeAt(code, at, LittleEndian(value, width))
    requires value < Pow256(width)
    ensures Operand(code, at, width) == value
  {
    LittleEndianRoundTrip(value, width);
    assert code[at..at + width] == LittleEndian(value, width);
  }

  lemma FetchPlain(code: seq<Byte>, ip: nat, i: Instr)
    requires CodeAt(code, ip, Encode(i))
    requires i.Ret? || i.NewClosure? || i.NewTuple? || i.Call? || i.Arithmetic? || i.Negate? || i.Move?
    ensures Fetch(code, ip) == Fetched(i, |Encode(i)|)
  {
    var bs := Encode(i);
    ByteAt(code, ip, bs, 0);
    if |bs| > 1 { ByteAt(code, ip, bs, 1); ByteAt(code, ip, bs, 2); }
    if |bs| > 3 { ByteAt(code, ip, bs, 3); }
  }

  lemma FetchImmediate(code: seq<Byte>, ip: nat, value: nat, dst: Byte)
    requires CodeAt(code, ip, Encode(LoadImmediate(value, dst)))
    ensures Fetch(code, ip) == Fetched(LoadImmediate(value, dst), |Encode(LoadImmediate(value, dst))|)
            <==> value < 0x1_0000_0000_0000_0000
  {
    var w := Width(value);
    var op := Encode(LoadImmediate(value, dst))[0];
    var le := LittleEndian(value, w);
    CodeAtSplit(code, ip, [op] + le, [dst]);
    CodeAtSplit(code, ip, [op], le);
    ByteAt(code, ip, [op], 0);
    ByteAt(code, ip + 1 + w, [dst], 0);
    Pow256Values();
    if value < 0x1_0000_0000_0000_0000 {
      OperandRoundTrip(code, ip + 1, value, w);
      if w == 1 { ByteAt(code, ip + 1, le, 0); }
    } else {
      FromLittleEndianBound(code[ip + 1..ip + 9]);
    }
  }

  lemma SlotOperands(code: seq<Byte>, ip: nat, op: Byte, first: Byte, slot: int, last: Byte)
    requires CodeAt(code, ip, [op, first] + LittleEndian(slot % 0x1_0000, 2) + [last])
    ensures ip + 5 <= |code| && code[ip] == op && code[ip + 1] == first && code[ip + 4] == last
    ensures Operand(code, ip + 2, 2) == slot % 0x1_0000
  {
    var le := LittleEndian(slot % 0x1_0000, 2);
    CodeAtSplit(code, ip, [op, first] + le, [last]);
    CodeAtSplit(code, ip, [op, first], le);
    Pow256Values();
    OperandRoundTrip(code, ip + 2, slot % 0x1_0000, 2);
    ByteAt(code, ip, [op, first], 0);
    ByteAt(code, ip, [op, first], 1);
    ByteAt(code, ip + 4, [last], 0);
  }

  lemma FetchLoadSlot(code: seq<Byte>, ip: nat, src: Byte, slot: int, dst: Byte)
    requires CodeAt(code, ip, Encode(LoadSlot(src, slot, dst)))
    ensures Fetch(code, ip) == Fetched(LoadSlot(src, slot, dst), 5) <==> -0x8000 <= slot < 0x8000
  {
    SlotOperands(code, ip, OP_LOADA_64, src, slot, dst);
  }

  lemma FetchStoreSlot(code: seq<Byte>, ip: nat, obj: Byte, slot: int, src: Byte)
    requires CodeAt(code, ip, Encode(StoreSlot(obj, slot, src)))
    ensures Fetch(code, ip) == Fetched(StoreSlot(obj, slot, src), 5) <==> -0x8000 <= slot < 0x8000
  {
    SlotOperands(code, ip, OP_STOREA_64, obj, slot, src);
  }

  lemma JumpOperand(code: seq<Byte>, ip: nat, head: seq<Byte>, off: int)
    requires CodeAt(code, ip, head + LittleEndian(off % 0x1_0000, 2))
    ensures CodeAt(code, ip, head) && ip + |head| + 2 <= |code|
    ensures Operand(code, ip + |head|, 2) == off % 0x1_0000
  {
    CodeAtSplit(code, ip, head, LittleEndian(off % 0x1_0000, 2));
    Pow256Values();
    OperandRoundTrip(code, ip + |head|, off % 0x1_0000, 2);
  }

  lemma FetchJump(code: seq<Byte>, ip: nat, off: int)
    requires CodeAt(code, ip, Encode(Jump(off)))
    ensures Fetch(code, ip) == Fetched(Jump(off), 3) <==> -0x8000 <= off < 0x8000
  {
    JumpOperand(code, ip, [OP_JMP], off);
    ByteAt(code, ip, [OP_JMP], 0);
  }

  lemma FetchJumpIfZero(code: seq<Byte>, ip: nat, src: Byte, off: int)
    requires CodeAt(code, ip, Encode(JumpIfZero(src, off)))
    ensures Fetch(code, ip) == Fetched(JumpIfZero(src, off), 4) <==> -0x8000 <= off < 0x8000
  {
    JumpOperand(code, ip, [OP_JZ, src], off);
    ByteAt(code, ip, [OP_JZ, src], 0);
    ByteAt(code, ip, [OP_JZ, src], 1);
  }

  lemma {:induction false} FromLittleEndianBound(bs: seq<Byte>)
    ensures FromLittleEndian(bs) < Pow256(|bs|)
  {
    if bs != [] { FromLittleEndianBound(bs[1..]); }
  }

  /** The machine decodes exactly what the compiler wrote, wherever it was written, if and only
      if no operand was truncated. */
  lemma FetchEncoded(code: seq<Byte>, ip: nat, i: Instr)
    requires CodeAt(code, ip, Encode(i)) && !i.Unknown?
    ensures Fetch(code, ip) == Fetched(i, |Encode(i)|) <==> Encodable(i)
  {
    match i
    case LoadImmediate(value, dst) => FetchImmediate(code, ip, value, dst);
    case LoadSlot(src, slot, dst) => FetchLoadSlot(code, ip, src, slot, dst);
    case StoreSlot(obj, slot, src) => FetchStoreSlot(code, ip, obj, slot, src);
    case Jump(off) => FetchJump(code, ip, off);
    case JumpIfZero(src, off) => FetchJumpIfZero(code, ip, src, off);
    case _ => FetchPlain(code, ip, i);
  }
}
