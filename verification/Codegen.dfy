/** The code the compiler emits for an expression, as a function of the compile context.

    Every jump is relative, so the bytes of an expression do not depend on where they end up;
    the compiler's patching of reserved jump holes produces the segments computed here (see
    module Compiler). There are two versions of it: the compiler as it is written, its four
    departures from the language included, and as it is meant, without them. Module Safety says
    when the departures are harmless. */
module Codegen {
  import opened Wrappers
  import opened Syntax
  import opened Bytecode
  import opened Machine

  datatype Binding = Binding(symbol: Symbol, reg: Byte)

  /** The part of the compile context that decides what is emitted next. As the compiler is meant,
      the lookup begins at the top binding, not above it; both branches of an `if` are copied to a
      register of its own, not the second to that of the first; each member of a tuple is compiled,
      not the first one every time; and a frame has the two registers that a call sets.
      `registers` counts the registers taken so far; the compiler's 8-bit counter is this number
      modulo 256. Popping a binding leaves it in `bindings`, above `top`. */
  datatype Context = Context(registers: nat, bindings: seq<Binding>, top: nat, closure: seq<Symbol>, version: Version)

  predicate WellFormed(c: Context) {
    c.top <= |c.bindings|
  }

  /** What compiling one expression yields: the context it leaves, its code, the register that
      holds its value, the functions it added to the module, and how many errors it reported. */
  datatype Emit = Emit(context: Context, code: seq<Byte>, reg: Byte, funcs: seq<Function>, errors: nat)

  function Push(c: Context, id: Symbol, reg: Byte): (r: Context)
    requires WellFormed(c)
    ensures WellFormed(r)
  {
    if c.top == |c.bindings| then c.(bindings := c.bindings + [Binding(id, reg)], top := c.top + 1)
    else c.(bindings := c.bindings[c.top := Binding(id, reg)], top := c.top + 1)
  }

  function Pop(c: Context): Context
    requires c.top > 0
  {
    c.(top := c.top - 1)
  }

  /** What compiling in `c` leaves alone: the bindings in scope stay, registers are only ever
      taken, and the closure grows at its end only. */
  predicate Grows(c: Context, d: Context)
    requires WellFormed(c)
  {
    && WellFormed(d) && d.top == c.top && d.bindings[..c.top] == c.bindings[..c.top]
    && c.registers <= d.registers && c.closure <= d.closure && d.version == c.version
  }

  lemma GrowsVersion(c: Context, d: Context)
    requires WellFormed(c) && Grows(c, d)
    ensures WellFormed(d) && d.version == c.version && c.registers <= d.registers
  {
  }

  lemma PushSame(c: Context, id: Symbol, reg: Byte)
    requires WellFormed(c)
    ensures Push(c, id, reg).registers == c.registers && Push(c, id, reg).version == c.version
  {
  }

  lemma GrowsTrans(c: Context, d: Context, e: Context)
    requires WellFormed(c) && Grows(c, d) && Grows(d, e)
    ensures Grows(c, e)
  {
  }

  lemma GrowsScope(c: Context, id: Symbol, reg: Byte, d: Context)
    requires WellFormed(c) && Grows(Push(c, id, reg), d)
    ensures Grows(c, Pop(d))
  {
    var p := Push(c, id, reg);
    assert p.bindings[..c.top] == c.bindings[..c.top];
    assert d.bindings[..p.top][..c.top] == d.bindings[..c.top];
    assert p.bindings[..p.top][..c.top] == p.bindings[..c.top];
  }

  function NewRegister(c: Context): Byte {
    c.registers % 256
  }

  function Allocate(c: Context): Context {
    c.(registers := c.registers + 1)
  }

  /** The most recent binding of `id` at index `i` or below. */
  function FindFrom(bindings: seq<Binding>, i: int, id: Symbol): Option<Byte>
    requires i < |bindings|
    decreases i + 1
  {
    if i < 0 then None
    else if bindings[i].symbol == id then Some(bindings[i].reg)
    else FindFrom(bindings, i - 1, id)
  }

  /** The lookup as the compiler performs it. As written its scan starts at `top`, where the
      binding that was popped last may still be. A slot that was never written matches no symbol. */
  function FindWritten(c: Context, id: Symbol): Option<Byte>
    requires WellFormed(c)
  {
    FindFrom(c.bindings, if c.version.AsWritten? && c.top < |c.bindings| then c.top else c.top - 1, id)
  }

  /** The lookup among the bindings in scope. */
  function Find(c: Context, id: Symbol): Option<Byte>
    requires WellFormed(c)
  {
    FindFrom(c.bindings, c.top - 1, id)
  }

  /** The first position of `id` in `symbols`, or their number. */
  function IndexOf(symbols: seq<Symbol>, id: Symbol): (i: nat)
    ensures i <= |symbols|
    ensures i < |symbols| ==> symbols[i] == id
    ensures i == |symbols| <==> id !in symbols
  {
    if symbols == [] then 0 else if symbols[0] == id then 0 else 1 + IndexOf(symbols[1..], id)
  }

  function Capture(closure: seq<Symbol>, id: Symbol): seq<Symbol> {
    if id in closure then closure else closure + [id]
  }

  function EmitLiteral(c: Context, value: nat): Emit {
    var r := NewRegister(c);
    Emit(Allocate(c), Encode(LoadImmediate(value, r)), r, [], 0)
  }

  function EmitIdentifier(c: Context, id: Symbol): Emit
    requires WellFormed(c)
  {
    match FindWritten(c, id)
    case Some(r) => Emit(c, [], r, [], 0)
    case None =>
      var r := NewRegister(c);
      var slot := IndexOf(c.closure, id) + 1;
      Emit(Allocate(c).(closure := Capture(c.closure, id)), Encode(LoadSlot(0, slot, r)), r, [], 0)
  }

  /** Stores the captured symbols from position `i` on into the closure object in `target`. */
  function EmitCaptures(c: Context, target: Byte, symbols: seq<Symbol>, i: nat): (r: Emit)
    requires WellFormed(c) && i <= |symbols|
    ensures Grows(c, r.context) && r.context.bindings == c.bindings
    decreases |symbols| - i
  {
    if i == |symbols| then Emit(c, [], target, [], 0) else
    var v := EmitIdentifier(c, symbols[i]);
    var rest := EmitCaptures(v.context, target, symbols, i + 1);
    Emit(rest.context, v.code + Encode(StoreSlot(target, i + 1, v.reg)) + rest.code, target, [], 0)
  }

  /** The context a function body starts in: register 0 holds the closure, to which the name of
      a recursive function is bound, and register 1 the argument. */
  function BodyContext(v: Version, self: Symbol, param: Symbol): (c: Context)
    ensures WellFormed(c)
  {
    Context(2,
            (if self != INVALID_SYMBOL then [Binding(self, 0)] else []) + [Binding(param, 1)],
            if self != INVALID_SYMBOL then 2 else 1,
            [],
            v)
  }

  /** The registers of a frame: those that were taken. As meant there are always the two that every
      call sets. */
  function FrameSize(v: Version, taken: nat): (n: nat)
    ensures taken <= n && (v.AsMeant? || taken >= 2 <==> n >= 2)
  {
    if v.AsMeant? && taken < 2 then 2 else taken
  }

  function Finish(body: Emit): Function {
    Function(body.code + Encode(Ret), FrameSize(body.context.version, body.context.registers), body.context.closure,
             body.reg)
  }

  /** A lambda as function `base`, its closure going to register `target`. */
  function EmitLambda(base: nat, c: Context, self: Symbol, param: Symbol, body: Expr, target: Byte): (r: Emit)
    requires WellFormed(c)
    ensures Grows(c, r.context) && r.context.bindings == c.bindings && r.reg == target
    decreases body, 2
  {
    var child := Gen(base + 1, BodyContext(c.version, self, param), body);
    var fn := Finish(child);
    var id := EmitLiteral(c, base);
    var captures := EmitCaptures(id.context, target, fn.closure, 0);
    Emit(captures.context, id.code + Encode(NewClosure(id.reg, target)) + captures.code, target,
         [fn] + child.funcs, child.errors)
  }

  function EmitApply(base: nat, c: Context, f: Expr, a: Expr): (r: Emit)
    requires WellFormed(c)
    ensures Grows(c, r.context)
    decreases Apply(f, a), 0
  {
    var x := Gen(base, c, f);
    var y := Gen(base + |x.funcs|, x.context, a);
    var out := NewRegister(y.context);
    Emit(Allocate(y.context), x.code + y.code + Encode(Call(x.reg, y.reg, out)), out,
         x.funcs + y.funcs, x.errors + y.errors)
  }

  function EmitLet(base: nat, c: Context, id: Symbol, value: Expr, body: Expr): (r: Emit)
    requires WellFormed(c)
    ensures Grows(c, r.context)
    decreases Let(id, value, body), 0
  {
    var x := Gen(base, c, value);
    var y := Gen(base + |x.funcs|, Push(x.context, id, x.reg), body);
    GrowsScope(x.context, id, x.reg, y.context);
    GrowsTrans(c, x.context, Pop(y.context));
    Emit(Pop(y.context), x.code + y.code, y.reg, x.funcs + y.funcs, x.errors + y.errors)
  }

  function EmitLetRec(base: nat, c: Context, id: Symbol, value: Expr, body: Expr): (r: Emit)
    requires WellFormed(c)
    ensures Grows(c, r.context)
    decreases LetRec(id, value, body), 0
  {
    var target := NewRegister(c);
    if !value.Lambda? then Emit(Allocate(c), [], target, [], 1) else
    var x := EmitLambda(base, Push(Allocate(c), id, target), id, value.param, value.body, target);
    var y := Gen(base + |x.funcs|, x.context, body);
    GrowsTrans(Push(Allocate(c), id, target), x.context, y.context);
    GrowsScope(Allocate(c), id, target, y.context);
    Emit(Pop(y.context), x.code + y.code, y.reg, x.funcs + y.funcs, x.errors + y.errors)
  }

  /** The copy that brings the value of a branch to the register of the whole. */
  function MoveCode(from: Byte, to: Byte): seq<Byte> {
    if from != to then Encode(Move(from, to)) else []
  }

  /** The code of an `if` from that of its parts: test, jump to the else branch, then-branch, jump
      to the end, else branch with its copy. Jumps are relative to the byte after them. */
  function IfCode(test: seq<Byte>, testReg: Byte, then_: seq<Byte>, otherwise: seq<Byte>): seq<Byte> {
    test + Encode(JumpIfZero(testReg, |then_| + 3)) + then_ + Encode(Jump(|otherwise|)) + otherwise
  }

  /** The context of the branches, after the test: as meant, a register for the result is taken. */
  function Branches(c: Context): (d: Context)
    requires WellFormed(c)
    ensures WellFormed(d) && Grows(c, d) && d.bindings == c.bindings && c.registers <= d.registers
  {
    if c.version.AsMeant? then Allocate(c) else c
  }

  /** Where the result goes: that register, or as written the one of the then-branch. */
  function ResultOf(c: Context, then_: Byte): Byte {
    if c.version.AsMeant? then NewRegister(c) else then_
  }

  function EmitIf(base: nat, c: Context, t: Expr, a: Expr, b: Expr): (r: Emit)
    requires WellFormed(c)
    ensures Grows(c, r.context)
    decreases If(t, a, b), 0
  {
    var x := Gen(base, c, t);
    var y := Gen(base + |x.funcs|, Branches(x.context), a);
    var z := Gen(base + |x.funcs| + |y.funcs|, y.context, b);
    var out := ResultOf(x.context, y.reg);
    Emit(z.context, IfCode(x.code, x.reg, y.code + MoveCode(y.reg, out), z.code + MoveCode(z.reg, out)), out,
         x.funcs + y.funcs + z.funcs, x.errors + y.errors + z.errors)
  }

  function ArithmeticOf(op: BinaryOp): Arith
    requires !op.Slash?
  {
    match op case Plus => Add case Minus => Sub case Star => Mul case Equals => Eq
  }

  /** An operator the machine lacks is reported, and only its opcode left out. */
  function BinaryCode(op: BinaryOp, left: Byte, right: Byte, out: Byte): seq<Byte> {
    if op.Slash? then [left, right, out] else Encode(Arithmetic(ArithmeticOf(op), left, right, out))
  }

  function EmitBinary(base: nat, c: Context, op: BinaryOp, l: Expr, r: Expr): (e: Emit)
    requires WellFormed(c)
    ensures Grows(c, e.context)
    decreases Binary(op, l, r), 0
  {
    var x := Gen(base, c, l);
    var y := Gen(base + |x.funcs|, x.context, r);
    var out := NewRegister(y.context);
    Emit(Allocate(y.context), x.code + y.code + BinaryCode(op, x.reg, y.reg, out), out, x.funcs + y.funcs,
         x.errors + y.errors + if op.Slash? then 1 else 0)
  }

  function EmitUnary(base: nat, c: Context, op: UnaryOp, a: Expr): (e: Emit)
    requires WellFormed(c)
    ensures Grows(c, e.context)
    decreases Unary(op, a), 0
  {
    var x := Gen(base, c, a);
    var out := NewRegister(x.context);
    var code := if op.UnaryPlus? then [x.reg, out] else Encode(Negate(x.reg, out));
    Emit(Allocate(x.context), x.code + code, out, x.funcs, x.errors + if op.UnaryPlus? then 1 else 0)
  }

  /** What is compiled for the members of a tuple: as written, its first member every time. */
  function Compiled(v: Version, e: Expr): (ms: seq<Expr>)
    requires e.Tuple?
    ensures forall m :: m in ms ==> m < e
  {
    if v.AsMeant? then MembersOf(e, e.length) else seq(e.length, _ => e.first)
  }

  /** Stores the members from position `i` on in `target`. */
  function EmitMembers(base: nat, c: Context, target: Byte, ms: seq<Expr>, i: nat, ghost whole: Expr): (r: Emit)
    requires WellFormed(c) && i <= |ms| && forall m :: m in ms ==> m < whole
    ensures Grows(c, r.context)
    decreases whole, 0, |ms| - i
  {
    if i == |ms| then Emit(c, [], target, [], 0) else
    assert ms[i] in ms;
    var v := Gen(base, c, ms[i]);
    var rest := EmitMembers(base + |v.funcs|, v.context, target, ms, i + 1, whole);
    Emit(rest.context, v.code + Encode(StoreSlot(target, i, v.reg)) + rest.code, target,
         v.funcs + rest.funcs, v.errors + rest.errors)
  }

  function EmitTuple(base: nat, c: Context, e: Expr): (r: Emit)
    requires WellFormed(c) && e.Tuple?
    ensures Grows(c, r.context)
    decreases e, 0
  {
    var len := EmitLiteral(c, e.length);
    var out := NewRegister(len.context);
    var members := EmitMembers(base, Allocate(len.context), out, Compiled(c.version, e), 0, e);
    members.(code := len.code + Encode(NewTuple(len.reg, out)) + members.code)
  }

  /** Compiles `e` in context `c`, with `base` functions in the module so far. */
  function Gen(base: nat, c: Context, e: Expr): (r: Emit)
    requires WellFormed(c)
    ensures Grows(c, r.context)
    ensures WellFormed(r.context) && c.registers <= r.context.registers
    decreases e, 1
  {
    match e
    case Literal(n) => EmitLiteral(c, n)
    case True => EmitLiteral(c, 1)
    case False => EmitLiteral(c, 0)
    case Identifier(id) => EmitIdentifier(c, id)
    case Lambda(param, body) => EmitLambda(base, Allocate(c), INVALID_SYMBOL, param, body, NewRegister(c))
    case Apply(f, a) => EmitApply(base, c, f, a)
    case Let(id, value, body) => EmitLet(base, c, id, value, body)
    case LetRec(id, value, body) => EmitLetRec(base, c, id, value, body)
    case If(t, a, b) => EmitIf(base, c, t, a, b)
    case Binary(op, l, r) => EmitBinary(base, c, op, l, r)
    case Unary(op, a) => EmitUnary(base, c, op, a)
    case Tuple(_, _, _) => EmitTuple(base, c, e)
    case TupleFinal(_) => Emit(c, [], 0, [], 1)
    case Error => Emit(c, [], 0, [], 0)
    case Invalid => Emit(c, [], 0, [], 1)
  }

  // ----- What the parts contribute -----

  lemma ApplyShape(base: nat, c: Context, f: Expr, a: Expr)
    requires WellFormed(c)
    ensures var x := Gen(base, c, f);
            var y := Gen(base + |x.funcs|, x.context, a);
            var out := NewRegister(y.context);
            EmitApply(base, c, f, a)
            == Emit(Allocate(y.context), x.code + y.code + Encode(Call(x.reg, y.reg, out)), out,
                    x.funcs + y.funcs, x.errors + y.errors)
  {
    hide Gen, Encode;
  }

  lemma BinaryShape(base: nat, c: Context, op: BinaryOp, l: Expr, r: Expr)
    requires WellFormed(c)
    ensures var x := Gen(base, c, l);
            var y := Gen(base + |x.funcs|, x.context, r);
            var out := NewRegister(y.context);
            EmitBinary(base, c, op, l, r)
            == Emit(Allocate(y.context), x.code + y.code + BinaryCode(op, x.reg, y.reg, out), out,
                    x.funcs + y.funcs, x.errors + y.errors + if op.Slash? then 1 else 0)
  {
    hide Gen, BinaryCode;
  }

  lemma LetShape(base: nat, c: Context, id: Symbol, value: Expr, body: Expr)
    requires WellFormed(c)
    ensures var x := Gen(base, c, value);
            var y := Gen(base + |x.funcs|, Push(x.context, id, x.reg), body);
            && y.context.top > 0 && y.context.registers == Pop(y.context).registers
            && EmitLet(base, c, id, value, body)
               == Emit(Pop(y.context), x.code + y.code, y.reg, x.funcs + y.funcs, x.errors + y.errors)
  {
    hide Gen;
  }

  lemma IfShape(base: nat, c: Context, t: Expr, a: Expr, b: Expr)
    requires WellFormed(c)
    ensures var x := Gen(base, c, t);
            var y := Gen(base + |x.funcs|, Branches(x.context), a);
            var z := Gen(base + |x.funcs| + |y.funcs|, y.context, b);
            var out := ResultOf(x.context, y.reg);
            EmitIf(base, c, t, a, b)
            == Emit(z.context, IfCode(x.code, x.reg, y.code + MoveCode(y.reg, out), z.code + MoveCode(z.reg, out)), out,
                    x.funcs + y.funcs + z.funcs, x.errors + y.errors + z.errors)
  {
    hide Gen, IfCode, MoveCode;
  }

  function EmptyContext(v: Version): (c: Context)
    ensures WellFormed(c)
  {
    Context(0, [], 0, [], v)
  }

  /** A whole program: its expression becomes function 0, the lambdas follow. */
  function Compile(v: Version, e: Expr): (m: Module)
    ensures |m| > 0
  {
    var body := Gen(1, EmptyContext(v), e);
    [Finish(body)] + body.funcs
  }

  function CompileErrors(v: Version, e: Expr): nat {
    Gen(1, EmptyContext(v), e).errors
  }
}
