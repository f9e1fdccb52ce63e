/** How the machine holds source values: integers and booleans as numbers, tuples and closures as
    objects of the heap, variables in registers or in slots of the running closure. */
module Representation {
  import opened Wrappers
  import opened Syntax
  import opened Semantics
  import opened Bytecode
  import M = Machine
  import opened Codegen
  import opened Safety

  type Module = M.Module
  type Heap = M.Heap
  type Word = M.Word
  type State = M.State

  // ----- What a module must look like -----

  ghost predicate FuncsAt(m: Module, base: nat, fs: seq<M.Function>) {
    base + |fs| <= |m| && forall i :: 0 <= i < |fs| ==> m[base + i] == fs[i]
  }

  lemma FuncsAtSplit(m: Module, base: nat, a: seq<M.Function>, b: seq<M.Function>)
    requires FuncsAt(m, base, a + b)
    ensures FuncsAt(m, base, a) && FuncsAt(m, base + |a|, b)
  {
    forall i | 0 <= i < |a| ensures m[base + i] == a[i] { assert (a + b)[i] == a[i]; }
    forall i | 0 <= i < |b| ensures m[base + |a| + i] == b[i] { assert (a + b)[|a| + i] == b[i]; }
  }

  /** Function `f` and those after it are what compiling this lambda yields. */
  ghost predicate FunctionAs(v: Version, m: Module, f: nat, self: Symbol, param: Symbol, body: Expr) {
    f < |m| &&
    var child := Gen(f + 1, BodyContext(v, self, param), body);
    && m[f] == Finish(child) && FuncsAt(m, f + 1, child.funcs) && child.errors == 0
    && Safe(f + 1, BodyContext(v, self, param), body)
  }

  /** ... by either version of the compiler. */
  ghost predicate FunctionFor(m: Module, f: nat, self: Symbol, param: Symbol, body: Expr) {
    f < |m| && exists v: Version :: FunctionAs(v, m, f, self, param, body)
  }

  /** The sizes the bytecode can express: 8-bit registers, 16-bit jumps and slots, and function
      identifiers that are an `int`. */
  predicate Fits(m: Module) {
    && |m| <= 0x8000_0000
    && forall f :: 0 <= f < |m| ==>
         m[f].registerCount <= 256 && |m[f].code| < 0x8000 && |m[f].closure| < 0x7FFF
  }

  // ----- Objects under construction -----

  predicate Complete(o: M.Object) {
    forall i :: 0 <= i < |o| ==> !o[i].Uninit?
  }

  /** Every object of `h` that is complete is still there in `h'`, unchanged. */
  ghost predicate Keeps(h: Heap, h': Heap) {
    |h| <= |h'| && forall a :: 0 <= a < |h| && Complete(h[a]) ==> h'[a] == h[a]
  }

  lemma KeepsTrans(a: Heap, b: Heap, c: Heap)
    requires Keeps(a, b) && Keeps(b, c)
    ensures Keeps(a, c)
  {
  }

  lemma PrefixKeeps(h: Heap, h': Heap)
    requires h <= h'
    ensures Keeps(h, h')
  {
  }

  // ----- Values -----

  /** Word `w` stands for value `v`. */
  ghost predicate Rep(m: Module, h: Heap, v: Value, w: Word)
    decreases v
  {
    match v
    case IntV(n) => w == M.Num(n)
    case BoolV(b) => w == M.Num(if b then 1 else 0)
    case TupleV(vs) =>
      && w.Ptr? && w.addr < |h| && Complete(h[w.addr]) && |h[w.addr]| == |vs|
      && forall i :: 0 <= i < |vs| ==> Rep(m, h, vs[i], h[w.addr][i].w)
    case ClosureV(self, param, body, env) =>
      match w
      case Num(_) => false
      case Static(f) => FunctionFor(m, f, self, param, body) && m[f].closure == []
      case Ptr(a) =>
        && a < |h| && Complete(h[a]) && |h[a]| > 0 && h[a][0].Header? && h[a][0].w.Num? &&
        var f := h[a][0].w.n;
        && FunctionFor(m, f, self, param, body)
        && |h[a]| == 1 + |m[f].closure| && m[f].closure != []
        && forall i :: 0 <= i < |m[f].closure| ==> RepVar(m, h, env, m[f].closure[i], h[a][i + 1].w)
  }

  /** Word `w` stands for the value `env` gives to `id`. */
  ghost predicate RepVar(m: Module, h: Heap, env: Env, id: Symbol, w: Word)
    decreases env
  {
    match env
    case Empty => false
    case Bind(x, v, rest) => if x == id then Rep(m, h, v, w) else RepVar(m, h, rest, id, w)
  }

  /** Completing other objects and allocating new ones changes no representation. */
  lemma {:induction false} RepKeeps(m: Module, h: Heap, h': Heap, v: Value, w: Word)
    requires Keeps(h, h') && Rep(m, h, v, w)
    ensures Rep(m, h', v, w)
    decreases v
  {
    hide Gen, Safe;
    match v
    case TupleV(vs) =>
      forall i | 0 <= i < |vs| ensures Rep(m, h', vs[i], h'[w.addr][i].w) {
        RepKeeps(m, h, h', vs[i], h[w.addr][i].w);
      }
    case ClosureV(_, _, _, env) =>
      if w.Ptr? {
        var closure := m[h[w.addr][0].w.n].closure;
        forall i | 0 <= i < |closure| ensures RepVar(m, h', env, closure[i], h'[w.addr][i + 1].w) {
          RepVarKeeps(m, h, h', env, closure[i], h[w.addr][i + 1].w);
        }
      }
    case _ =>
  }

  lemma {:induction false} RepVarKeeps(m: Module, h: Heap, h': Heap, env: Env, id: Symbol, w: Word)
    requires Keeps(h, h') && RepVar(m, h, env, id, w)
    ensures RepVar(m, h', env, id, w)
    decreases env
  {
    match env
    case Bind(x, v, rest) =>
      if x == id { RepKeeps(m, h, h', v, w); } else { RepVarKeeps(m, h, h', rest, id, w); }
  }

  lemma {:induction false} RepVarLookup(m: Module, h: Heap, env: Env, id: Symbol, w: Word)
    requires RepVar(m, h, env, id, w)
    ensures Lookup(env, id).Some? && Rep(m, h, Lookup(env, id).value, w)
  {
    match env
    case Bind(x, v, rest) => if x != id { RepVarLookup(m, h, rest, id, w); }
  }

  // ----- Variables -----

  /** The value of `id` is where code compiled in context `c` looks for it: in its register, or
      in the slot that the finished closure `cs` assigns to it. */
  ghost predicate Bound(m: Module, cs: seq<Symbol>, c: Context, env: Env, id: Symbol, s: State)
    requires WellFormed(c)
  {
    match Find(c, id)
    case Some(r) => r < |s.regs| && RepVar(m, s.heap, env, id, s.regs[r])
    case None =>
      && id in cs && 0 < |s.regs| && s.regs[0].Ptr? && s.regs[0].addr < |s.heap| &&
      var o := s.heap[s.regs[0].addr];
      Complete(o) && |o| == 1 + |cs| && RepVar(m, s.heap, env, id, o[IndexOf(cs, id) + 1].w)
  }

  /** Bindings in scope name registers that have been taken. */
  predicate Scoped(c: Context) {
    WellFormed(c) && forall i :: 0 <= i < c.top ==> c.bindings[i].reg < c.registers
  }

  /** State `s` can run code of function `f` that was compiled in context `c` and uses `vars`. */
  ghost predicate Ready(m: Module, f: nat, c: Context, vars: set<Symbol>, env: Env, s: State) {
    && f < |m| && Scoped(c) && s.ip >= 0 && |s.regs| == m[f].registerCount
    && (m[f].closure != [] ==> c.registers >= 2)
    && forall id :: id in vars ==> Bound(m, m[f].closure, c, env, id, s)
  }

  /** Registers below `n` other than those of `over` hold the same in both frames. */
  ghost predicate Preserved(n: nat, over: set<Byte>, a: seq<Word>, b: seq<Word>) {
    |a| == |b| && forall i: Byte :: i < n && i < |a| && i !in over ==> a[i] == b[i]
  }

  lemma {:induction false} FindScoped(bindings: seq<Binding>, i: int, n: nat, id: Symbol)
    requires i < |bindings| && forall j :: 0 <= j <= i ==> bindings[j].reg < n
    ensures FindFrom(bindings, i, id).Some? ==> FindFrom(bindings, i, id).value < n
    decreases i + 1
  {
    if i >= 0 && bindings[i].symbol != id { FindScoped(bindings, i - 1, n, id); }
  }

  /** Running something else keeps a state ready, as long as the registers its variables live in
      were not overwritten. */
  lemma ReadyKeeps(m: Module, f: nat, c: Context, d: Context, vars: set<Symbol>, env: Env, s: State, t: State,
                   over: set<Byte>)
    requires Ready(m, f, c, vars, env, s) && Grows(c, d) && Apart(c, vars, over)
    requires Preserved(c.registers, over, s.regs, t.regs) && Keeps(s.heap, t.heap) && t.ip >= 0
    ensures Ready(m, f, d, vars, env, t)
  {
    hide RepVar;
    forall i | 0 <= i < d.top ensures d.bindings[i].reg < d.registers {
      assert c.bindings[..c.top][i] == d.bindings[..c.top][i];
    }
    forall id | id in vars ensures Bound(m, m[f].closure, d, env, id, t) {
      FindGrows(c, d, id);
      assert Bound(m, m[f].closure, c, env, id, s);
      assert Home(c, id) !in over;
      FindScoped(c.bindings, c.top - 1, c.registers, id);
      match Find(c, id)
      case Some(r) => RepVarKeeps(m, s.heap, t.heap, env, id, s.regs[r]);
      case None =>
        RepVarKeeps(m, s.heap, t.heap, env, id, s.heap[s.regs[0].addr][IndexOf(m[f].closure, id) + 1].w);
    }
  }

  /** Binding a variable to the register that holds its value. */
  lemma ReadyPush(m: Module, f: nat, c: Context, vars: set<Symbol>, env: Env, s: State,
                  id: Symbol, reg: Byte, v: Value)
    requires Ready(m, f, c, vars - {id}, env, s)
    requires reg < c.registers && reg < |s.regs| && Rep(m, s.heap, v, s.regs[reg])
    ensures Ready(m, f, Push(c, id, reg), vars, Bind(id, v, env), s)
  {
    hide Rep;
    forall x | x in vars ensures Bound(m, m[f].closure, Push(c, id, reg), Bind(id, v, env), x, s) {
      FindPush(c, id, reg, x);
      if x != id { assert Bound(m, m[f].closure, c, env, x, s); }
    }
  }

  /** A binding of another symbol changes nothing for `vars`. */
  lemma ReadyHide(m: Module, f: nat, c: Context, vars: set<Symbol>, env: Env, s: State, id: Symbol, reg: Byte)
    requires Ready(m, f, c, vars, env, s) && id !in vars && reg < c.registers
    ensures Ready(m, f, Push(c, id, reg), vars, env, s)
  {
    hide RepVar;
    forall x | x in vars ensures Bound(m, m[f].closure, Push(c, id, reg), env, x, s) {
      FindPush(c, id, reg, x);
      assert Bound(m, m[f].closure, c, env, x, s);
    }
  }

  lemma ReadyFewer(m: Module, f: nat, c: Context, vars: set<Symbol>, fewer: set<Symbol>, env: Env, s: State)
    requires Ready(m, f, c, vars, env, s) && fewer <= vars
    ensures Ready(m, f, c, fewer, env, s)
  {
  }

  /** Variables live in registers that have been taken. */
  lemma HomeTaken(m: Module, f: nat, c: Context, vars: set<Symbol>, env: Env, s: State, id: Symbol)
    requires Ready(m, f, c, vars, env, s) && id in vars
    ensures Home(c, id) < c.registers
  {
    hide RepVar;
    assert Bound(m, m[f].closure, c, env, id, s);
    FindScoped(c.bindings, c.top - 1, c.registers, id);
  }

  /** The result register of safe code is one that has been taken. */
  lemma {:induction false} ResultTaken(base: nat, c: Context, e: Expr)
    requires WellFormed(c) && Scoped(c) && Safe(base, c, e)
    ensures Gen(base, c, e).reg < Gen(base, c, e).context.registers
    decreases e, 1
  {
    hide FindFrom, Encode, SafeMembers, SafeLambda, SafeBoth, Overwrites, EmitCaptures, EmitMembers, EmitTuple,
         Compiled,
         Scoped, Apart, EmitLet, EmitLetRec, EmitIf, SafeLet, SafeLetRec, SafeIf;
    match e
    case Identifier(id) =>
      assert Fresh(c, id);
      ScopedFind(c, id);
    case Let(id, value, body) => LetResult(base, c, id, value, body);
    case LetRec(id, value, body) => LetRecResult(base, c, id, value, body);
    case If(t, a, b) => IfResult(base, c, t, a, b);
    case Tuple(_, _, _) => TupleResult(base, c, e);
    case _ =>
  }

  lemma {:induction false} LetResult(base: nat, c: Context, id: Symbol, value: Expr, body: Expr)
    requires WellFormed(c) && Scoped(c) && SafeLet(base, c, id, value, body)
    ensures EmitLet(base, c, id, value, body).reg < EmitLet(base, c, id, value, body).context.registers
    decreases Let(id, value, body), 0
  {
    hide *;
    var x := Gen(base, c, value);
    LetShape(base, c, id, value, body);
    SafeLetParts(base, c, id, value, body);
    ResultTaken(base, c, value);
    GrowsScoped(c, x.context);
    ScopedPush(x.context, id, x.reg);
    ResultTaken(base + |x.funcs|, Push(x.context, id, x.reg), body);
  }

  lemma {:induction false} LetRecResult(base: nat, c: Context, id: Symbol, value: Expr, body: Expr)
    requires WellFormed(c) && Scoped(c) && SafeLetRec(base, c, id, value, body)
    ensures EmitLetRec(base, c, id, value, body).reg < EmitLetRec(base, c, id, value, body).context.registers
    decreases LetRec(id, value, body), 0
  {
    hide Gen, Safe, Scoped, EmitLambda, SafeLambda;
    var target := NewRegister(c);
    var d := Push(Allocate(c), id, target);
    var x := EmitLambda(base, d, id, value.param, value.body, target);
    GrowsScoped(c, Allocate(c));
    ScopedPush(Allocate(c), id, target);
    GrowsScoped(d, x.context);
    ResultTaken(base + |x.funcs|, x.context, body);
  }

  lemma {:induction false} IfResult(base: nat, c: Context, t: Expr, a: Expr, b: Expr)
    requires WellFormed(c) && Scoped(c) && SafeIf(base, c, t, a, b)
    ensures EmitIf(base, c, t, a, b).reg < EmitIf(base, c, t, a, b).context.registers
    decreases If(t, a, b), 0
  {
    hide *;
    var x := Gen(base, c, t);
    var d := Branches(x.context);
    var y := Gen(base + |x.funcs|, d, a);
    IfShape(base, c, t, a, b);
    SafeIfParts(base, c, t, a, b);
    GrowsScoped(c, x.context);
    GrowsScoped(x.context, d);
    ResultTaken(base + |x.funcs|, d, a);
    ResultOfTaken(x.context, y);
  }

  lemma ResultOfTaken(c: Context, y: Emit)
    requires WellFormed(c) && y.reg < y.context.registers && Branches(c).registers <= y.context.registers
    ensures ResultOf(c, y.reg) < y.context.registers
  {
  }

  lemma TupleResult(base: nat, c: Context, e: Expr)
    requires WellFormed(c) && e.Tuple?
    ensures EmitTuple(base, c, e).reg < EmitTuple(base, c, e).context.registers
  {
    var d := Allocate(Allocate(c));
    var members := EmitMembers(base, d, NewRegister(Allocate(c)), Compiled(c.version, e), 0, e);
    assert members.reg == NewRegister(Allocate(c)) && Grows(d, members.context);
  }

  lemma ScopedFind(c: Context, id: Symbol)
    requires WellFormed(c) && Scoped(c)
    ensures Find(c, id).Some? ==> Find(c, id).value < c.registers
  {
    FindScoped(c.bindings, c.top - 1, c.registers, id);
  }

  lemma ScopedPush(c: Context, id: Symbol, reg: Byte)
    requires WellFormed(c) && Scoped(c) && reg < c.registers
    ensures Scoped(Push(c, id, reg))
  {
  }

  lemma GrowsScoped(c: Context, d: Context)
    requires WellFormed(c) && Scoped(c) && Grows(c, d)
    ensures Scoped(d)
  {
    forall i | 0 <= i < d.top ensures d.bindings[i].reg < d.registers {
      assert c.bindings[..c.top][i] == d.bindings[..c.top][i];
    }
  }
}
