/** Running the emitted code computes what the source evaluates to. */
module Simulation {
  import opened Wrappers
  import opened Syntax
  import opened Semantics
  import opened Bytecode
  import M = Machine
  import opened Codegen
  import opened Safety
  import opened ClosureConversion
  import opened Representation

  /** The emitted code `r` is part of function `f` of the module, at `ip`. */
  ghost predicate Placed(m: Module, f: nat, base: nat, r: Emit, ip: int) {
    && f < |m| && ip >= 0 && r.errors == 0
    && CodeAt(m[f].code, ip, r.code) && FuncsAt(m, base, r.funcs)
    && r.context.registers <= m[f].registerCount && r.context.closure <= m[f].closure
  }

  /** From `s` the machine reaches `t`, just behind code of the given size, with value `v` in
      register `reg`; it has only added to the heap, and written no register below `n` that is
      not in `over`. */
  ghost predicate Ran(m: Module, f: nat, n: nat, over: set<Byte>, size: nat, reg: Byte, v: Value,
                      s: State, k: nat, t: State)
  {
    && f < |m| && M.Reaches(m, f, s, k, t) && t.ip == s.ip + size && s.heap <= t.heap
    && Preserved(n, over, s.regs, t.regs)
    && reg < |t.regs| && Rep(m, t.heap, v, t.regs[reg])
  }

  /** One instruction that sets a register is executed. */
  lemma SetsRegister(m: Module, f: nat, s: State, i: Instr, dst: Byte, w: Word, h: Heap) returns (t: State)
    requires f < |m| && s.ip >= 0 && CodeAt(m[f].code, s.ip, Encode(i)) && Encodable(i)
    requires dst < |s.regs| && !i.Call? && !i.JumpIfZero?
    requires M.Execute(m, i, s.ip + |Encode(i)|, s) == M.Next(M.State(s.ip + |Encode(i)|, s.regs[dst := w], h))
    ensures t == M.State(s.ip + |Encode(i)|, s.regs[dst := w], h)
    ensures M.Reaches(m, f, s, 1, t)
  {
    t := M.State(s.ip + |Encode(i)|, s.regs[dst := w], h);
    M.ReachesStep(m, f, s, i, t);
  }

  lemma ReachesNothing(m: Module, f: nat, s: State)
    requires f < |m|
    ensures M.Reaches(m, f, s, 0, s)
  {
  }

  // ----- Variables -----

  lemma {:induction false} IndexOfPrefix(a: seq<Symbol>, cs: seq<Symbol>, id: Symbol)
    requires Capture(a, id) <= cs
    ensures IndexOf(cs, id) == IndexOf(a, id)
  {
    if a != [] && a[0] != id {
      assert Capture(a[1..], id) == Capture(a, id)[1..];
      IndexOfPrefix(a[1..], cs[1..], id);
    }
  }

  /** The code of an identifier brings its value to the result register, without touching
      anything else. */
  lemma SimulateIdentifier(m: Module, f: nat, base: nat, c: Context, id: Symbol, env: Env, s: State)
    returns (k: nat, t: State)
    requires Fits(m) && Ready(m, f, c, {id}, env, s) && Fresh(c, id)
    requires Placed(m, f, base, EmitIdentifier(c, id), s.ip)
    ensures var r := EmitIdentifier(c, id);
            && M.Reaches(m, f, s, k, t) && t.ip == s.ip + |r.code| && t.heap == s.heap
            && Preserved(c.registers, {}, s.regs, t.regs)
            && r.reg < r.context.registers && r.reg < |t.regs| && RepVar(m, t.heap, env, id, t.regs[r.reg])
  {
    hide RepVar, Encode, FindFrom, M.Run, M.Reaches;
    assert Bound(m, m[f].closure, c, env, id, s);
    var r := EmitIdentifier(c, id);
    match Find(c, id)
    case Some(reg) =>
      FindScoped(c.bindings, c.top - 1, c.registers, id);
      ReachesNothing(m, f, s);
      k, t := 0, s;
    case None =>
      t := LoadsCaptured(m, f, c, id, env, s);
      k := 1;
  }

  /** A variable that is captured is loaded from its slot. */
  lemma LoadsCaptured(m: Module, f: nat, c: Context, id: Symbol, env: Env, s: State) returns (t: State)
    requires Fits(m) && Ready(m, f, c, {id}, env, s) && Fresh(c, id) && Find(c, id).None?
    requires Placed(m, f, 0, EmitIdentifier(c, id), s.ip)
    ensures var r := EmitIdentifier(c, id);
            && M.Reaches(m, f, s, 1, t) && t.ip == s.ip + |r.code| && t.heap == s.heap
            && Preserved(c.registers, {}, s.regs, t.regs)
            && r.reg < r.context.registers && r.reg < |t.regs| && RepVar(m, t.heap, env, id, t.regs[r.reg])
  {
    hide RepVar, Encode, FindFrom, M.Run, M.Reaches;
    assert Bound(m, m[f].closure, c, env, id, s);
    var r, cs := EmitIdentifier(c, id), m[f].closure;
    IndexOfPrefix(c.closure, cs, id);
    var slot := IndexOf(c.closure, id) + 1;
    var o := s.heap[s.regs[0].addr];
    t := SetsRegister(m, f, s, LoadSlot(0, slot, r.reg), r.reg, o[slot].w, s.heap);
  }

  // ----- Closures -----

  /** Object `a` is a closure of function `g` whose first `i` captured symbols are stored. */
  ghost predicate Filling(m: Module, h: Heap, env: Env, a: nat, g: nat, symbols: seq<Symbol>, i: nat) {
    && a < |h| && |h[a]| == 1 + |symbols| && i <= |symbols| && h[a][0].Header? && h[a][0].w.Num? && h[a][0].w.n == g
    && (forall j :: 1 <= j <= i ==> h[a][j].Written? && RepVar(m, h, env, symbols[j - 1], h[a][j].w))
    && (forall j :: i < j < |h[a]| ==> h[a][j] == M.Uninit)
  }

  lemma FillingStep(m: Module, h: Heap, env: Env, a: nat, g: nat, symbols: seq<Symbol>, i: nat, w: Word)
    requires Filling(m, h, env, a, g, symbols, i) && i < |symbols| && RepVar(m, h, env, symbols[i], w)
    ensures a < |h| && i + 1 < |h[a]|
    ensures var h' := h[a := h[a][i + 1 := M.Written(w)]];
            Keeps(h, h') && Filling(m, h', env, a, g, symbols, i + 1)
  {
    hide RepVar;
    var o := h[a];
    var o' := o[i + 1 := M.Written(w)];
    var h' := h[a := o'];
    assert o[i + 1] == M.Uninit;
    assert Keeps(h, h');
    assert o'[0] == o[0];
    forall j | 1 <= j <= i + 1
      ensures o'[j].Written? && RepVar(m, h', env, symbols[j - 1], o'[j].w)
    {
      if j <= i {
        assert o'[j] == o[j];
        RepVarKeeps(m, h, h', env, symbols[j - 1], o[j].w);
      } else {
        RepVarKeeps(m, h, h', env, symbols[i], w);
      }
    }
    forall j | i + 1 < j < |o'| ensures o'[j] == M.Uninit {
      assert o'[j] == o[j];
    }
  }

  /** The stores that follow the allocation of a closure put symbol number j in slot j + 1. */
  lemma {:induction false} SimulateCaptures(m: Module, f: nat, c: Context, target: Byte, symbols: seq<Symbol>,
                                            i: nat, env: Env, s: State, a: nat, g: nat)
    returns (k: nat, t: State)
    requires Fits(m) && i <= |symbols| < 0x7FFF && WellFormed(c) && Ready(m, f, c, Elements(symbols[i..]), env, s)
    requires forall id :: id in symbols ==> Fresh(c, id)
    requires Placed(m, f, 0, EmitCaptures(c, target, symbols, i), s.ip)
    requires target < c.registers && target < |s.regs| && s.regs[target] == M.Ptr(a)
    requires Filling(m, s.heap, env, a, g, symbols, i)
    ensures M.Reaches(m, f, s, k, t) && t.ip == s.ip + |EmitCaptures(c, target, symbols, i).code|
    ensures Preserved(c.registers, {}, s.regs, t.regs)
    ensures Filling(m, t.heap, env, a, g, symbols, |symbols|)
    ensures |t.heap| == |s.heap| && forall b :: 0 <= b < |s.heap| && b != a ==> t.heap[b] == s.heap[b]
    decreases |symbols| - i
  {
    hide Encode, Filling, Bound, EmitIdentifier, RepVar, Ready, Fresh, M.Reaches;
    var r := EmitCaptures(c, target, symbols, i);
    if i == |symbols| {
      ReachesNothing(m, f, s);
      k, t := 0, s;
    } else {
      var id := symbols[i];
      var v := EmitIdentifier(c, id);
      var rest := EmitCaptures(v.context, target, symbols, i + 1);
      var store := StoreSlot(target, i + 1, v.reg);
      CodeAtSplit(m[f].code, s.ip, v.code + Encode(store), rest.code);
      CodeAtSplit(m[f].code, s.ip, v.code, Encode(store));
      assert symbols[i..][0] == id && symbols[i..][1..] == symbols[i + 1..];
      ReadyFewer(m, f, c, Elements(symbols[i..]), {id}, env, s);
      IdentifierPlaced(m, f, c, id, target, symbols, i, s.ip);
      var k0, s0 := SimulateIdentifier(m, f, 0, c, id, env, s);
      var w := s0.regs[v.reg];
      FillingStep(m, s.heap, env, a, g, symbols, i, w);
      var s1 := M.State(s0.ip + |Encode(store)|, s0.regs, s.heap[a := s.heap[a][i + 1 := M.Written(w)]]);
      StoreSteps(m, f, s0, target, i + 1, v.reg, a, s1);
      M.ReachesTrans(m, f, s, k0, s0, 1, s1);
      ReadyFewer(m, f, c, Elements(symbols[i..]), Elements(symbols[i + 1..]), env, s);
      ReadyKeeps(m, f, c, v.context, Elements(symbols[i + 1..]), env, s, s1, {});
      forall x | x in symbols ensures Fresh(v.context, x) { SameScopeFresh(c, id, x); }
      var k1, s2 := SimulateCaptures(m, f, v.context, target, symbols, i + 1, env, s1, a, g);
      M.ReachesTrans(m, f, s, k0 + 1, s1, k1, s2);
      k, t := k0 + 1 + k1, s2;
    }
  }

  lemma SameScopeFresh(c: Context, id: Symbol, x: Symbol)
    requires WellFormed(c) && Fresh(c, x)
    ensures WellFormed(EmitIdentifier(c, id).context) && Fresh(EmitIdentifier(c, id).context, x)
    ensures Grows(c, EmitIdentifier(c, id).context)
  {
  }

  lemma IdentifierPlaced(m: Module, f: nat, c: Context, id: Symbol, target: Byte, symbols: seq<Symbol>, i: nat, ip: int)
    requires WellFormed(c) && i < |symbols| && symbols[i] == id
    requires Placed(m, f, 0, EmitCaptures(c, target, symbols, i), ip)
    ensures Placed(m, f, 0, EmitIdentifier(c, id), ip)
    ensures var v := EmitIdentifier(c, id);
            && Grows(c, v.context) && v.reg < 256
            && Placed(m, f, 0, EmitCaptures(v.context, target, symbols, i + 1), ip + |v.code| + 5)
  {
    hide FindFrom, FindWritten, LittleEndian;
    var v := EmitIdentifier(c, id);
    var rest := EmitCaptures(v.context, target, symbols, i + 1);
    var store := Encode(StoreSlot(target, i + 1, v.reg));
    CodeAtSplit(m[f].code, ip, v.code + store, rest.code);
    CodeAtSplit(m[f].code, ip, v.code, store);
  }

  lemma StoreSteps(m: Module, f: nat, s: State, target: Byte, slot: nat, src: Byte, a: nat, t: State)
    requires f < |m| && s.ip >= 0 && CodeAt(m[f].code, s.ip, Encode(StoreSlot(target, slot, src))) && slot < 0x8000
    requires target < |s.regs| && src < |s.regs| && s.regs[target] == M.Ptr(a) && a < |s.heap| && slot < |s.heap[a]|
    requires t == M.State(s.ip + |Encode(StoreSlot(target, slot, src))|, s.regs,
                          s.heap[a := s.heap[a][slot := M.Written(s.regs[src])]])
    ensures M.Reaches(m, f, s, 1, t)
  {
    M.ReachesStep(m, f, s, StoreSlot(target, slot, src), t);
  }

  lemma LambdaPlaced(m: Module, f: nat, base: nat, c: Context, self: Symbol, param: Symbol, body: Expr,
                     target: Byte, ip: int)
    requires WellFormed(c) && SafeLambda(base, c, self, param, body)
    requires Placed(m, f, base, EmitLambda(base, c, self, param, body, target), ip)
    ensures FunctionAs(c.version, m, base, self, param, body)
    ensures var id := EmitLiteral(c, base);
            var next := ip + |id.code|;
            && CodeAt(m[f].code, ip, id.code) && CodeAt(m[f].code, next, Encode(NewClosure(id.reg, target)))
            && c.registers + 1 <= m[f].registerCount
            && Placed(m, f, 0, EmitCaptures(id.context, target, m[base].closure, 0), next + 3)
            && |EmitLambda(base, c, self, param, body, target).code|
               == |id.code| + 3 + |EmitCaptures(id.context, target, m[base].closure, 0).code|
  {
    hide Gen, Safe, LittleEndian;
    var child := Gen(base + 1, BodyContext(c.version, self, param), body);
    var fn := Finish(child);
    FuncsAtSplit(m, base, [fn], child.funcs);
    assert m[base + 0] == [fn][0];
    var id := EmitLiteral(c, base);
    var captures := EmitCaptures(id.context, target, fn.closure, 0);
    var make := Encode(NewClosure(id.reg, target));
    CodeAtSplit(m[f].code, ip, id.code + make, captures.code);
    CodeAtSplit(m[f].code, ip, id.code, make);
  }

  /** A filled closure object represents the closure. */
  lemma FilledRep(m: Module, h: Heap, env: Env, a: nat, g: nat, self: Symbol, param: Symbol, body: Expr)
    requires FunctionFor(m, g, self, param, body) && m[g].closure != []
    requires Filling(m, h, env, a, g, m[g].closure, |m[g].closure|)
    ensures Rep(m, h, ClosureV(self, param, body, env), M.Ptr(a))
  {
    hide Gen, Safe, RepVar;
    forall i | 0 <= i < |m[g].closure| ensures RepVar(m, h, env, m[g].closure[i], h[a][i + 1].w) {
      assert h[a][i + 1].Written?;
    }
  }

  /** Loading the function identifier and allocating the closure object. */
  lemma SimulateNewClosure(m: Module, f: nat, base: nat, c: Context, target: Byte, s: State) returns (t: State)
    requires Fits(m) && f < |m| && base < |m| && WellFormed(c) && s.ip >= 0
    requires target < c.registers < |s.regs| <= 256
    requires var id := EmitLiteral(c, base);
             && CodeAt(m[f].code, s.ip, id.code)
             && CodeAt(m[f].code, s.ip + |id.code|, Encode(NewClosure(id.reg, target)))
    ensures M.Reaches(m, f, s, 2, t) && t.ip == s.ip + |EmitLiteral(c, base).code| + 3
    ensures Preserved(c.registers, {target}, s.regs, t.regs)
    ensures if m[base].closure == [] then t.heap == s.heap && t.regs[target] == M.Static(base)
            else t.heap == s.heap + [M.AllocateClosure(base, |m[base].closure|)] && t.regs[target] == M.Ptr(|s.heap|)
  {
    hide M.Reaches, M.Run, LittleEndian;
    var id := EmitLiteral(c, base);
    var s1 := SetsRegister(m, f, s, LoadImmediate(base, id.reg), id.reg, M.Num(base), s.heap);
    if m[base].closure == [] {
      t := SetsRegister(m, f, s1, NewClosure(id.reg, target), target, M.Static(base), s.heap);
    } else {
      t := SetsRegister(m, f, s1, NewClosure(id.reg, target), target, M.Ptr(|s.heap|),
                        s.heap + [M.AllocateClosure(base, |m[base].closure|)]);
    }
    M.ReachesTrans(m, f, s, 1, s1, 1, t);
  }

  /** The code of a lambda leaves its closure in the target register. */
  lemma SimulateLambda(m: Module, f: nat, base: nat, c: Context, self: Symbol, param: Symbol, body: Expr,
                       target: Byte, env: Env, s: State)
    returns (k: nat, t: State)
    requires Fits(m) && WellFormed(c) && SafeLambda(base, c, self, param, body)
    requires Ready(m, f, c, FunctionVars(self, param, body), env, s)
    requires Apart(c, FunctionVars(self, param, body), {target}) && target < c.registers
    requires Placed(m, f, base, EmitLambda(base, c, self, param, body, target), s.ip)
    ensures Ran(m, f, c.registers, {target}, |EmitLambda(base, c, self, param, body, target).code|, target,
                ClosureV(self, param, body, env), s, k, t)
  {
    hide Gen, Safe, RepVar, Bound, Filling, M.Reaches, EmitCaptures, FunctionFor, FunctionAs, Encode, FreeVars,
         IndexOf, M.Step, M.Run, Sees, SeesLambda;
    var vars := FunctionVars(self, param, body);
    LambdaPlaced(m, f, base, c, self, param, body, target, s.ip);
    SafeSeesLambda(base, c, self, param, body);
    FunctionCaptures(base, c, self, param, body);
    FunctionClosure(c.version, m, base, self, param, body);
    var id := EmitLiteral(c, base);
    var symbols := m[base].closure;
    assert symbols[0..] == symbols && Elements(symbols) == vars;
    var s2 := SimulateNewClosure(m, f, base, c, target, s);
    if symbols == [] {
      NoCaptures(id.context, target);
      k, t := 2, s2;
      assert Rep(m, t.heap, ClosureV(self, param, body, env), t.regs[target]);
    } else {
      var a := |s.heap|;
      ReadyKeeps(m, f, c, id.context, vars, env, s, s2, {target});
      FillingStart(m, s2.heap, env, a, base, symbols);
      forall x | x in symbols ensures Fresh(id.context, x) { assert Fresh(c, x); }
      var k3, s3 := SimulateCaptures(m, f, id.context, target, symbols, 0, env, s2, a, base);
      M.ReachesTrans(m, f, s, 2, s2, k3, s3);
      k, t := 2 + k3, s3;
      assert Preserved(c.registers, {target}, s.regs, t.regs);
      assert s.heap <= t.heap;
      FilledRep(m, t.heap, env, a, base, self, param, body);
    }
  }

  lemma FunctionClosure(v: Version, m: Module, g: nat, self: Symbol, param: Symbol, body: Expr)
    requires FunctionAs(v, m, g, self, param, body)
    ensures FunctionFor(m, g, self, param, body)
    ensures m[g].closure == Gen(g + 1, BodyContext(v, self, param), body).context.closure
  {
  }

  lemma NoCaptures(c: Context, target: Byte)
    requires WellFormed(c)
    ensures EmitCaptures(c, target, [], 0).code == []
  {
  }

  lemma FillingStart(m: Module, h: Heap, env: Env, a: nat, g: nat, symbols: seq<Symbol>)
    requires a < |h| && g < 0x8000_0000 && h[a] == M.AllocateClosure(g, |symbols|)
    ensures Filling(m, h, env, a, g, symbols, 0)
  {
  }

  // ----- Expressions -----

  /** Two pieces of code in a row, followed by instructions of the caller. */
  lemma PlacedTwo(m: Module, f: nat, base: nat, x: Emit, y: Emit, z: Emit, tail: seq<Byte>, ip: int)
    requires Placed(m, f, base, z, ip) && z.code == x.code + y.code + tail && z.funcs == x.funcs + y.funcs
    requires z.errors >= x.errors + y.errors
    requires x.context.registers <= y.context.registers <= z.context.registers
    requires x.context.closure <= y.context.closure <= z.context.closure
    ensures Placed(m, f, base, x, ip) && Placed(m, f, base + |x.funcs|, y, ip + |x.code|)
    ensures CodeAt(m[f].code, ip + |x.code| + |y.code|, tail)
  {
    CodeAtSplit(m[f].code, ip, x.code + y.code, tail);
    CodeAtSplit(m[f].code, ip, x.code, y.code);
    FuncsAtSplit(m, base, x.funcs, y.funcs);
  }

  lemma SimulateLiteral(m: Module, f: nat, base: nat, c: Context, n: U64, v: Value, s: State) returns (t: State)
    requires Fits(m) && Placed(m, f, base, EmitLiteral(c, n), s.ip) && |s.regs| == m[f].registerCount
    requires v == IntV(n) || (v == BoolV(n == 1) && n <= 1)
    ensures var r := EmitLiteral(c, n);
            Ran(m, f, c.registers, {}, |r.code|, r.reg, v, s, 1, t)
  {
    hide M.Run, LittleEndian;
    var r := EmitLiteral(c, n);
    t := SetsRegister(m, f, s, LoadImmediate(n, r.reg), r.reg, M.Num(n), s.heap);
  }

  /** Something has run, and then something else that leaves its result alone. */
  lemma RanTrans(m: Module, f: nat, n: nat, over: set<Byte>, size: nat, reg: Byte, v: Value, s: State, k: nat, t: State,
                 n': nat, over': set<Byte>, size': nat, reg': Byte, v': Value, k': nat, u: State)
    requires Ran(m, f, n, over, size, reg, v, s, k, t) && n <= n'
    requires Ran(m, f, n', over', size', reg', v', t, k', u)
    ensures Ran(m, f, n, over + over', size + size', reg', v', s, k + k', u)
    ensures reg < n' && reg !in over' ==> u.regs[reg] == t.regs[reg] && Rep(m, u.heap, v, u.regs[reg])
  {
    hide Rep, M.Reaches;
    M.ReachesTrans(m, f, s, k, t, k', u);
    PrefixKeeps(t.heap, u.heap);
    RepKeeps(m, t.heap, u.heap, v, t.regs[reg]);
  }

  lemma ReadyScoped(m: Module, f: nat, c: Context, vars: set<Symbol>, env: Env, s: State)
    requires Ready(m, f, c, vars, env, s)
    ensures Scoped(c) && s.ip >= 0
  {
  }

  lemma RanParts(m: Module, f: nat, n: nat, over: set<Byte>, size: nat, reg: Byte, v: Value, s: State, k: nat, t: State)
    requires Ran(m, f, n, over, size, reg, v, s, k, t)
    ensures f < |m| && t.ip == s.ip + size && reg < |t.regs| == |s.regs| && Rep(m, t.heap, v, t.regs[reg])
    ensures Keeps(s.heap, t.heap) && Preserved(n, over, s.regs, t.regs)
  {
    hide Rep;
    PrefixKeeps(s.heap, t.heap);
  }

  lemma {:induction false} SimulateBoth(m: Module, f: nat, base: nat, c: Context, l: Expr, r: Expr, whole: Expr,
                                        env: Env, fuel: nat, s: State)
    returns (k: nat, t: State)
    requires Fits(m) && l < whole && r < whole && WellFormed(c) && SafeBoth(base, c, l, r, whole)
    requires Ready(m, f, c, FreeVars(l) + FreeVars(r), env, s)
    requires Eval(l, env, fuel).Val? && Eval(r, env, fuel).Val?
    requires var x := Gen(base, c, l);
             && Placed(m, f, base, x, s.ip)
             && Placed(m, f, base + |x.funcs|, Gen(base + |x.funcs|, x.context, r), s.ip + |x.code|)
    ensures var x := Gen(base, c, l);
            var y := Gen(base + |x.funcs|, x.context, r);
            && Ran(m, f, c.registers, OverwritesBoth(base, c, l, r, whole), |x.code| + |y.code|, y.reg,
                   Eval(r, env, fuel).v, s, k, t)
            && x.reg < |t.regs| && Rep(m, t.heap, Eval(l, env, fuel).v, t.regs[x.reg])
    decreases fuel, whole, 0
  {
    hide *;
    var x := Gen(base, c, l);
    var y := Gen(base + |x.funcs|, x.context, r);
    var over, over' := Overwrites(base, c, l), Overwrites(base + |x.funcs|, x.context, r);
    SafeBothParts(base, c, l, r, whole);
    ReadyFewer(m, f, c, FreeVars(l) + FreeVars(r), FreeVars(l), env, s);
    ReadyFewer(m, f, c, FreeVars(l) + FreeVars(r), FreeVars(r), env, s);
    ReadyScoped(m, f, c, FreeVars(l), env, s);
    ResultTaken(base, c, l);
    var k0, s0 := Simulate(m, f, base, c, l, env, fuel, s);
    RanParts(m, f, c.registers, over, |x.code|, x.reg, Eval(l, env, fuel).v, s, k0, s0);
    ReadyKeeps(m, f, c, x.context, FreeVars(r), env, s, s0, over);
    var k1, s1 := Simulate(m, f, base + |x.funcs|, x.context, r, env, fuel, s0);
    k, t := k0 + k1, s1;
    RanParts(m, f, x.context.registers, over', |y.code|, y.reg, Eval(r, env, fuel).v, s0, k1, s1);
    RanTrans(m, f, c.registers, over, |x.code|, x.reg, Eval(l, env, fuel).v, s, k0, s0,
             x.context.registers, over', |y.code|, y.reg, Eval(r, env, fuel).v, k1, s1);
  }

  /** Compiled code of any expression computes its value. */
  lemma {:induction false} Simulate(m: Module, f: nat, base: nat, c: Context, e: Expr, env: Env, fuel: nat, s: State)
    returns (k: nat, t: State)
    requires Fits(m) && WellFormed(c) && Ready(m, f, c, FreeVars(e), env, s) && Safe(base, c, e)
    requires Placed(m, f, base, Gen(base, c, e), s.ip) && Eval(e, env, fuel).Val?
    ensures var r := Gen(base, c, e);
            Ran(m, f, c.registers, Overwrites(base, c, e), |r.code|, r.reg, Eval(e, env, fuel).v, s, k, t)
    decreases fuel, e, 2
  {
    hide Rep, Bound, M.Reaches, CodeAt, FuncsAt, Encode, EmitIdentifier, EmitLambda, EmitLiteral, Ran, Placed,
         SafeLambda, Preserved, Grows, SafeBoth, SafeLet, SafeLetRec, SafeIf, OverwritesBoth, OverwritesLet,
         OverwritesLetRec, OverwritesIf, FindWritten;
    match e
    case Literal(n) => t := SimulateLiteral(m, f, base, c, n, IntV(n), s); k := 1;
    case True => t := SimulateLiteral(m, f, base, c, 1, BoolV(true), s); k := 1;
    case False => t := SimulateLiteral(m, f, base, c, 0, BoolV(false), s); k := 1;
    case Identifier(id) => k, t := SimulateVariable(m, f, base, c, id, env, fuel, s);
    case Lambda(param, body) => k, t := SimulatePlainLambda(m, f, base, c, param, body, env, fuel, s);
    case Apply(g, a) => k, t := SimulateApply(m, f, base, c, g, a, env, fuel, s);
    case Let(id, value, body) => k, t := SimulateLet(m, f, base, c, id, value, body, env, fuel, s);
    case LetRec(id, value, body) => k, t := SimulateLetRec(m, f, base, c, id, value, body, env, fuel, s);
    case If(q, a, b) => k, t := SimulateIf(m, f, base, c, q, a, b, env, fuel, s);
    case Binary(op, l, r) => k, t := SimulateBinary(m, f, base, c, op, l, r, env, fuel, s);
    case Unary(op, a) => k, t := SimulateUnary(m, f, base, c, op, a, env, fuel, s);
    case Tuple(_, _, _) => k, t := SimulateTuple(m, f, base, c, e, env, fuel, s);
  }

  lemma SimulateVariable(m: Module, f: nat, base: nat, c: Context, id: Symbol, env: Env, fuel: nat, s: State)
    returns (k: nat, t: State)
    requires Fits(m) && WellFormed(c) && Ready(m, f, c, {id}, env, s) && Fresh(c, id)
    requires Placed(m, f, base, EmitIdentifier(c, id), s.ip) && Eval(Identifier(id), env, fuel).Val?
    ensures var r := EmitIdentifier(c, id);
            Ran(m, f, c.registers, {}, |r.code|, r.reg, Eval(Identifier(id), env, fuel).v, s, k, t)
  {
    hide M.Run, Rep, RepVar, EmitIdentifier;
    k, t := SimulateIdentifier(m, f, base, c, id, env, s);
    RepVarLookup(m, t.heap, env, id, t.regs[EmitIdentifier(c, id).reg]);
  }

  lemma SimulatePlainLambda(m: Module, f: nat, base: nat, c: Context, param: Symbol, body: Expr, env: Env,
                            fuel: nat, s: State)
    returns (k: nat, t: State)
    requires var e := Lambda(param, body);
             && Fits(m) && WellFormed(c) && Ready(m, f, c, FreeVars(e), env, s) && Safe(base, c, e)
             && Placed(m, f, base, Gen(base, c, e), s.ip)
    ensures var e := Lambda(param, body);
            var r := Gen(base, c, e);
            Ran(m, f, c.registers, {}, |r.code|, r.reg, Eval(e, env, fuel).v, s, k, t)
  {
    hide M.Run, Rep, Bound, EmitLambda, M.Reaches, SafeLambda, CodeAt, FuncsAt, Home;
    var e := Lambda(param, body);
    var d := Allocate(c);
    var target := NewRegister(c);
    var vars := FunctionVars(INVALID_SYMBOL, param, body);
    assert vars == FreeVars(e);
    forall id | id in vars ensures Home(d, id) != target {
      HomeTaken(m, f, c, vars, env, s, id);
      FindGrows(c, d, id);
      SameHome(c, d, id);
    }
    ReadyKeeps(m, f, c, d, vars, env, s, s, {});
    k, t := SimulateLambda(m, f, base, d, INVALID_SYMBOL, param, body, target, env, s);
    assert Ran(m, f, d.registers, {target}, |Gen(base, c, e).code|, target,
               ClosureV(INVALID_SYMBOL, param, body, env), s, k, t);
    assert Preserved(c.registers, {}, s.regs, t.regs);
  }

  lemma SameHome(c: Context, d: Context, id: Symbol)
    requires WellFormed(c) && WellFormed(d) && Find(c, id) == Find(d, id)
    ensures Home(c, id) == Home(d, id)
  {
  }

  lemma {:induction false} SimulateLet(m: Module, f: nat, base: nat, c: Context, id: Symbol, value: Expr, body: Expr,
                                       env: Env, fuel: nat, s: State)
    returns (k: nat, t: State)
    requires var e := Let(id, value, body);
             && Fits(m) && WellFormed(c) && Ready(m, f, c, FreeVars(e), env, s) && SafeLet(base, c, id, value, body)
             && Placed(m, f, base, EmitLet(base, c, id, value, body), s.ip) && Eval(e, env, fuel).Val?
    ensures var e := Let(id, value, body);
            var r := EmitLet(base, c, id, value, body);
            Ran(m, f, c.registers, OverwritesLet(base, c, id, value, body), |r.code|, r.reg, Eval(e, env, fuel).v, s,
                k, t)
    decreases fuel, Let(id, value, body), 1
  {
    hide Gen, Safe, Rep, Overwrites, Bound, M.Reaches, CodeAt, FuncsAt, M.Run;
    var x := Gen(base, c, value);
    var d := Push(x.context, id, x.reg);
    var y := Gen(base + |x.funcs|, d, body);
    var r := EmitLet(base, c, id, value, body);
    assert r.code == x.code + y.code + [];
    PlacedTwo(m, f, base, x, y, r, [], s.ip);
    var v := Eval(value, env, fuel).v;
    var vars := FreeVars(body) - {id};
    ReadyFewer(m, f, c, FreeVars(Let(id, value, body)), FreeVars(value), env, s);
    ReadyFewer(m, f, c, FreeVars(Let(id, value, body)), vars, env, s);
    ResultTaken(base, c, value);
    var k0, s0 := Simulate(m, f, base, c, value, env, fuel, s);
    PrefixKeeps(s.heap, s0.heap);
    ReadyKeeps(m, f, c, x.context, vars, env, s, s0, Overwrites(base, c, value));
    ReadyPush(m, f, x.context, FreeVars(body), env, s0, id, x.reg, v);
    var k1, s1 := Simulate(m, f, base + |x.funcs|, d, body, Bind(id, v, env), fuel, s0);
    k, t := k0 + k1, s1;
    RanTrans(m, f, c.registers, Overwrites(base, c, value), |x.code|, x.reg, v, s, k0, s0,
             d.registers, Overwrites(base + |x.funcs|, d, body), |y.code|, y.reg,
             Eval(body, Bind(id, v, env), fuel).v, k1, s1);
  }

  /** A `let rec` closure is built before its name is usable, and then its name denotes it. */
  lemma SimulateRecursive(m: Module, f: nat, base: nat, c: Context, id: Symbol, value: Expr, body: Expr, env: Env,
                          s: State)
    returns (k: nat, t: State)
    requires var e := LetRec(id, value, body);
             && Fits(m) && WellFormed(c) && Ready(m, f, c, FreeVars(e), env, s) && SafeLetRec(base, c, id, value, body)
             && Placed(m, f, base, EmitLetRec(base, c, id, value, body), s.ip)
    ensures var target := NewRegister(c);
            var x := EmitLambda(base, Push(Allocate(c), id, target), id, value.param, value.body, target);
            var v := ClosureV(id, value.param, value.body, env);
            && Ran(m, f, c.registers, {}, |x.code|, target, v, s, k, t)
            && Ready(m, f, x.context, FreeVars(body), Bind(id, v, env), t)
  {
    hide Gen, Safe, Rep, Bound, M.Reaches, CodeAt, FuncsAt, M.Run, SafeLambda, EmitLambda, Home;
    var e := LetRec(id, value, body);
    var a := Allocate(c);
    var target := NewRegister(c);
    var d := Push(a, id, target);
    var x := EmitLambda(base, d, id, value.param, value.body, target);
    var y := Gen(base + |x.funcs|, x.context, body);
    var r := EmitLetRec(base, c, id, value, body);
    assert r.code == x.code + y.code + [];
    PlacedTwo(m, f, base, x, y, r, [], s.ip);
    var own := FunctionVars(id, value.param, value.body);
    var others := FreeVars(body) - {id};
    var v := ClosureV(id, value.param, value.body, env);
    ReadyFewer(m, f, c, FreeVars(e), own, env, s);
    ReadyFewer(m, f, c, FreeVars(e), others, env, s);
    TargetApart(m, f, c, FreeVars(e), env, s, target);
    ReadyKeeps(m, f, c, a, own, env, s, s, {});
    ReadyHide(m, f, a, own, env, s, id, target);
    forall z | z in own ensures Home(d, z) != target {
      FindPush(a, id, target, z);
      SameHome(c, d, z);
    }
    k, t := SimulateLambda(m, f, base, d, id, value.param, value.body, target, env, s);
    PrefixKeeps(s.heap, t.heap);
    ReadyKeeps(m, f, c, a, others, env, s, t, {target});
    ReadyPush(m, f, a, FreeVars(body), env, t, id, target, v);
    ReadyKeeps(m, f, d, x.context, FreeVars(body), Bind(id, v, env), t, t, {});
  }

  lemma {:induction false} SimulateLetRec(m: Module, f: nat, base: nat, c: Context, id: Symbol, value: Expr, body: Expr,
                                          env: Env, fuel: nat, s: State)
    returns (k: nat, t: State)
    requires var e := LetRec(id, value, body);
             && Fits(m) && WellFormed(c) && Ready(m, f, c, FreeVars(e), env, s) && SafeLetRec(base, c, id, value, body)
             && Placed(m, f, base, EmitLetRec(base, c, id, value, body), s.ip) && Eval(e, env, fuel).Val?
    ensures var e := LetRec(id, value, body);
            var r := EmitLetRec(base, c, id, value, body);
            Ran(m, f, c.registers, OverwritesLetRec(base, c, id, value, body), |r.code|, r.reg, Eval(e, env, fuel).v,
                s, k, t)
    decreases fuel, LetRec(id, value, body), 1
  {
    hide Gen, Safe, Rep, Overwrites, Bound, M.Reaches, CodeAt, FuncsAt, M.Run, SafeLambda, EmitLambda;
    var target := NewRegister(c);
    var x := EmitLambda(base, Push(Allocate(c), id, target), id, value.param, value.body, target);
    var y := Gen(base + |x.funcs|, x.context, body);
    var r := EmitLetRec(base, c, id, value, body);
    assert r.code == x.code + y.code + [];
    PlacedTwo(m, f, base, x, y, r, [], s.ip);
    var v := ClosureV(id, value.param, value.body, env);
    var k0, s0 := SimulateRecursive(m, f, base, c, id, value, body, env, s);
    var k1, s1 := Simulate(m, f, base + |x.funcs|, x.context, body, Bind(id, v, env), fuel, s0);
    k, t := k0 + k1, s1;
    RanTrans(m, f, c.registers, {}, |x.code|, target, v, s, k0, s0,
             x.context.registers, Overwrites(base + |x.funcs|, x.context, body), |y.code|, y.reg,
             Eval(body, Bind(id, v, env), fuel).v, k1, s1);
  }

  /** A register that is still free holds no variable. */
  lemma TargetApart(m: Module, f: nat, c: Context, vars: set<Symbol>, env: Env, s: State, target: Byte)
    requires Ready(m, f, c, vars, env, s) && target >= c.registers
    ensures Apart(c, vars, {target})
  {
    forall id | id in vars ensures Home(c, id) != target { HomeTaken(m, f, c, vars, env, s, id); }
  }

  /** The machine's arithmetic is that of the language. */
  lemma ArithmeticAgrees(m: Module, h: Heap, op: BinaryOp, a: Value, b: Value, x: Word, y: Word) returns (w: Word)
    requires BinaryValue(op, a, b).Val? && Rep(m, h, a, x) && Rep(m, h, b, y)
    ensures !op.Slash? && M.ArithmeticResult(ArithmeticOf(op), x, y) == Some(w) && Rep(m, h, BinaryValue(op, a, b).v, w)
  {
    w := M.ArithmeticResult(ArithmeticOf(op), x, y).value;
  }

  lemma {:induction false} SimulateBinary(m: Module, f: nat, base: nat, c: Context, op: BinaryOp, l: Expr, r: Expr,
                                          env: Env, fuel: nat, s: State)
    returns (k: nat, t: State)
    requires var e := Binary(op, l, r);
             && Fits(m) && f < |m| && WellFormed(c) && |s.regs| == m[f].registerCount &&
                Ready(m, f, c, FreeVars(l) + FreeVars(r), env, s) && SafeBoth(base, c, l, r, e)
             && Placed(m, f, base, EmitBinary(base, c, op, l, r), s.ip) && Eval(e, env, fuel).Val?
    ensures var e := Binary(op, l, r);
            var z := EmitBinary(base, c, op, l, r);
            Ran(m, f, c.registers, OverwritesBoth(base, c, l, r, e), |z.code|, z.reg, Eval(e, env, fuel).v, s, k, t)
    decreases fuel, Binary(op, l, r), 1
  {
    hide Ready, Gen, Safe, SafeBoth, M.Reaches, Overwrites, OverwritesBoth, CodeAt, FuncsAt, M.Run, FreeVars, Rep,
         BinaryValue, EmitBinary, Placed, Ran;
    var e := Binary(op, l, r);
    OperandsPlaced(m, f, base, c, op, l, r, s.ip);
    var k0, s0 := SimulateBoth(m, f, base, c, l, r, e, env, fuel, s);
    t := OperatorDone(m, f, base, c, op, l, r, OverwritesBoth(base, c, l, r, e), Eval(l, env, fuel).v,
                      Eval(r, env, fuel).v, s, k0, s0);
    k := k0 + 1;
  }

  lemma OperandsPlaced(m: Module, f: nat, base: nat, c: Context, op: BinaryOp, l: Expr, r: Expr, ip: int)
    requires WellFormed(c) && Placed(m, f, base, EmitBinary(base, c, op, l, r), ip)
    ensures var x := Gen(base, c, l);
            var y := Gen(base + |x.funcs|, x.context, r);
            var z := EmitBinary(base, c, op, l, r);
            && Placed(m, f, base, x, ip) && Placed(m, f, base + |x.funcs|, y, ip + |x.code|) && !op.Slash?
            && CodeAt(m[f].code, ip + |x.code| + |y.code|, Encode(Arithmetic(ArithmeticOf(op), x.reg, y.reg, z.reg)))
            && |z.code| == |x.code| + |y.code| + 4 && z.reg == NewRegister(y.context) &&
               c.registers <= y.context.registers
            && y.context.registers < m[f].registerCount
  {
    hide Gen;
    var x := Gen(base, c, l);
    var y := Gen(base + |x.funcs|, x.context, r);
    var z := EmitBinary(base, c, op, l, r);
    PlacedTwo(m, f, base, x, y, z, Encode(Arithmetic(ArithmeticOf(op), x.reg, y.reg, z.reg)), ip);
  }

  /** The operator, once both operands have been computed. */
  lemma OperatorDone(m: Module, f: nat, base: nat, c: Context, op: BinaryOp, l: Expr, r: Expr, over: set<Byte>,
                     lv: Value, rv: Value, s: State, k: nat, s0: State)
    returns (t: State)
    requires Fits(m) && WellFormed(c) && Placed(m, f, base, EmitBinary(base, c, op, l, r), s.ip) &&
             |s.regs| == m[f].registerCount
    requires var x := Gen(base, c, l);
             var y := Gen(base + |x.funcs|, x.context, r);
             && Ran(m, f, c.registers, over, |x.code| + |y.code|, y.reg, rv, s, k, s0)
             && x.reg < |s0.regs| && Rep(m, s0.heap, lv, s0.regs[x.reg])
    requires BinaryValue(op, lv, rv).Val?
    ensures var z := EmitBinary(base, c, op, l, r);
            Ran(m, f, c.registers, over, |z.code|, z.reg, BinaryValue(op, lv, rv).v, s, k + 1, t)
  {
    hide *;
    OperandsPlaced(m, f, base, c, op, l, r, s.ip);
    var x := Gen(base, c, l);
    var y := Gen(base + |x.funcs|, x.context, r);
    var z := EmitBinary(base, c, op, l, r);
    RanParts(m, f, c.registers, over, |x.code| + |y.code|, y.reg, rv, s, k, s0);
    FitsRegisters(m, f);
    NewIsCount(y.context);
    PlacedRegisters(m, f, base, z, s.ip);
    var w := ArithmeticAgrees(m, s0.heap, op, lv, rv, s0.regs[x.reg], s0.regs[y.reg]);
    t := ArithmeticStep(m, f, s0, ArithmeticOf(op), x.reg, y.reg, z.reg, w);
    RanSets(m, f, c.registers, over, |x.code| + |y.code|, y.reg, rv, s, k, s0, z.reg, BinaryValue(op, lv, rv).v, w, t);
  }

  lemma FitsRegisters(m: Module, f: nat)
    requires Fits(m) && f < |m|
    ensures m[f].registerCount <= 256
  {
  }

  lemma NewIsCount(c: Context)
    requires c.registers < 256
    ensures NewRegister(c) == c.registers
  {
  }

  lemma ArithmeticStep(m: Module, f: nat, s: State, op: Arith, l: Byte, r: Byte, dst: Byte, w: Word) returns (t: State)
    requires f < |m| && s.ip >= 0 && CodeAt(m[f].code, s.ip, Encode(Arithmetic(op, l, r, dst)))
    requires l < |s.regs| && r < |s.regs| && dst < |s.regs| && M.ArithmeticResult(op, s.regs[l], s.regs[r]) == Some(w)
    ensures t == M.State(s.ip + 4, s.regs[dst := w], s.heap) && M.Reaches(m, f, s, 1, t)
  {
    t := SetsRegister(m, f, s, Arithmetic(op, l, r, dst), dst, w, s.heap);
  }

  /** After something has run, one more instruction of four bytes sets a register. */
  lemma RanSets(m: Module, f: nat, n: nat, over: set<Byte>, size: nat, reg: Byte, v: Value, s: State, k: nat, s0: State,
                dst: Byte, v': Value, w: Word, t: State)
    requires Ran(m, f, n, over, size, reg, v, s, k, s0) && M.Reaches(m, f, s0, 1, t) && dst >= n && dst < |s0.regs|
    requires t == M.State(s0.ip + 4, s0.regs[dst := w], s0.heap) && Rep(m, s0.heap, v', w)
    ensures Ran(m, f, n, over, size + 4, dst, v', s, k + 1, t)
  {
    hide Rep, M.Reaches;
    M.ReachesTrans(m, f, s, k, s0, 1, t);
  }

  lemma {:induction false} SimulateUnary(m: Module, f: nat, base: nat, c: Context, op: UnaryOp, a: Expr,
                                         env: Env, fuel: nat, s: State)
    returns (k: nat, t: State)
    requires var e := Unary(op, a);
             && Fits(m) && WellFormed(c) && Ready(m, f, c, FreeVars(e), env, s) && Safe(base, c, a)
             && Placed(m, f, base, EmitUnary(base, c, op, a), s.ip) && Eval(e, env, fuel).Val?
    ensures var e := Unary(op, a);
            var z := EmitUnary(base, c, op, a);
            Ran(m, f, c.registers, Overwrites(base, c, a), |z.code|, z.reg, Eval(e, env, fuel).v, s, k, t)
    decreases fuel, Unary(op, a), 1
  {
    hide Gen, Safe, Bound, M.Reaches, Overwrites, FuncsAt, CodeAt, M.Run;
    var x := Gen(base, c, a);
    var z := EmitUnary(base, c, op, a);
    var i := Negate(x.reg, z.reg);
    CodeAtSplit(m[f].code, s.ip, x.code, Encode(i));
    var k0, s0 := Simulate(m, f, base, c, a, env, fuel, s);
    var s1 := SetsRegister(m, f, s0, i, z.reg, M.Num((WORD - s0.regs[x.reg].n) % WORD), s0.heap);
    M.ReachesTrans(m, f, s, k0, s0, 1, s1);
    k, t := k0 + 1, s1;
  }

  // ----- Conditionals -----

  lemma GrowsMore(c: Context, d: Context)
    requires WellFormed(c) && Grows(c, d)
    ensures c.registers <= d.registers && c.closure <= d.closure
  {
  }

  lemma FitsCode(m: Module, f: nat)
    requires Fits(m) && f < |m|
    ensures |m[f].code| < 0x8000
  {
  }

  /** The emitted code `r` is part of function `f`, wherever its bytes are. */
  ghost predicate Present(m: Module, f: nat, base: nat, r: Emit) {
    && f < |m| && r.errors == 0 && FuncsAt(m, base, r.funcs)
    && r.context.registers <= m[f].registerCount && r.context.closure <= m[f].closure
  }

  lemma CodeAtPlaced(m: Module, f: nat, base: nat, r: Emit, ip: int)
    requires Present(m, f, base, r) && ip >= 0 && CodeAt(m[f].code, ip, r.code)
    ensures Placed(m, f, base, r, ip)
  {
  }

  lemma PlacedThree(m: Module, f: nat, base: nat, x: Emit, y: Emit, z: Emit, all: Emit, ip: int)
    requires Placed(m, f, base, all, ip) && all.funcs == x.funcs + y.funcs + z.funcs
    requires all.errors >= x.errors + y.errors + z.errors
    requires x.context.registers <= y.context.registers <= z.context.registers <= all.context.registers
    requires x.context.closure <= y.context.closure <= z.context.closure <= all.context.closure
    ensures Present(m, f, base, x) && Present(m, f, base + |x.funcs|, y) &&
            Present(m, f, base + |x.funcs| + |y.funcs|, z)
    ensures ip >= 0 && CodeAt(m[f].code, ip, all.code)
  {
    FuncsAtSplit(m, base, x.funcs + y.funcs, z.funcs);
    FuncsAtSplit(m, base, x.funcs, y.funcs);
  }

  /** The parts of the code of an `if`, and the bounds on its jumps. */
  lemma IfCodeAt(code: seq<Byte>, ip: nat, x: seq<Byte>, reg: Byte, y: seq<Byte>, otherwise: seq<Byte>)
    requires CodeAt(code, ip, IfCode(x, reg, y, otherwise))
    ensures CodeAt(code, ip, x) && CodeAt(code, ip + |x|, Encode(JumpIfZero(reg, |y| + 3)))
    ensures CodeAt(code, ip + |x| + 4, y) && CodeAt(code, ip + |x| + 4 + |y|, Encode(Jump(|otherwise|)))
    ensures CodeAt(code, ip + |x| + 4 + |y| + 3, otherwise)
    ensures |y| + 3 < |code| && |otherwise| < |code| && |IfCode(x, reg, y, otherwise)| == |x| + 4 + |y| + 3
            + |otherwise|
  {
    hide CodeAt, LittleEndian;
    var test := Encode(JumpIfZero(reg, |y| + 3));
    var jump := Encode(Jump(|otherwise|));
    CodeAtSplit(code, ip, x + test + y + jump, otherwise);
    CodeAtSplit(code, ip, x + test + y, jump);
    CodeAtSplit(code, ip, x + test, y);
    CodeAtSplit(code, ip, x, test);
    CodeAtEnd(code, ip + |x| + 4, y);
    CodeAtEnd(code, ip + |x| + 4 + |y| + 3, otherwise);
  }

  lemma IfPlaced(m: Module, f: nat, base: nat, c: Context, q: Expr, a: Expr, b: Expr, ip: int)
    requires Fits(m) && WellFormed(c) && Placed(m, f, base, EmitIf(base, c, q, a, b), ip)
    ensures var x := Gen(base, c, q);
            var d := Branches(x.context);
            var y := Gen(base + |x.funcs|, d, a);
            var z := Gen(base + |x.funcs| + |y.funcs|, y.context, b);
            var out := ResultOf(x.context, y.reg);
            var move, move' := MoveCode(y.reg, out), MoveCode(z.reg, out);
            var skip := |y.code| + |move| + 3;
            var test := ip + |x.code|;
            var end := |z.code| + |move'|;
            && Placed(m, f, base, x, ip)
            && CodeAt(m[f].code, test, Encode(JumpIfZero(x.reg, skip))) && skip < 0x8000
            && Placed(m, f, base + |x.funcs|, y, test + 4)
            && CodeAt(m[f].code, test + 4 + |y.code|, move)
            && CodeAt(m[f].code, test + 1 + skip, Encode(Jump(end))) && end < 0x8000
            && Placed(m, f, base + |x.funcs| + |y.funcs|, z, test + 4 + skip)
            && CodeAt(m[f].code, test + 4 + skip + |z.code|, move')
            && |EmitIf(base, c, q, a, b).code| == |x.code| + 4 + skip + end
            && EmitIf(base, c, q, a, b).reg == out
  {
    hide *;
    var x := Gen(base, c, q);
    var d := Branches(x.context);
    var y := Gen(base + |x.funcs|, d, a);
    var z := Gen(base + |x.funcs| + |y.funcs|, y.context, b);
    var out := ResultOf(x.context, y.reg);
    var move, move' := MoveCode(y.reg, out), MoveCode(z.reg, out);
    IfShape(base, c, q, a, b);
    GrowsTrans(x.context, d, y.context);
    GrowsMore(x.context, y.context);
    GrowsMore(y.context, z.context);
    PlacedThree(m, f, base, x, y, z, EmitIf(base, c, q, a, b), ip);
    IfCodeAt(m[f].code, ip, x.code, x.reg, y.code + move, z.code + move');
    FitsCode(m, f);
    CodeAtSplit(m[f].code, ip + |x.code| + 4, y.code, move);
    CodeAtSplit(m[f].code, ip + |x.code| + 4 + |y.code + move| + 3, z.code, move');
    CodeAtPlaced(m, f, base, x, ip);
    CodeAtPlaced(m, f, base + |x.funcs|, y, ip + |x.code| + 4);
    CodeAtPlaced(m, f, base + |x.funcs| + |y.funcs|, z, ip + |x.code| + 4 + |y.code + move| + 3);
  }

  lemma IfVars(q: Expr, a: Expr, b: Expr)
    ensures FreeVars(If(q, a, b)) == FreeVars(q) + FreeVars(a) + FreeVars(b)
  {
  }

  lemma ApartFewer(c: Context, vars: set<Symbol>, fewer: set<Symbol>, regs: set<Byte>)
    requires WellFormed(c) && Apart(c, vars, regs) && fewer <= vars
    ensures Apart(c, fewer, regs)
  {
  }

  lemma ReadyFrame(m: Module, f: nat, c: Context, vars: set<Symbol>, env: Env, s: State)
    requires Ready(m, f, c, vars, env, s)
    ensures f < |m| && |s.regs| == m[f].registerCount
  {
  }

  lemma TestStep(m: Module, f: nat, s: State, reg: Byte, skip: nat, v: Value, t: State)
    requires f < |m| && s.ip >= 0 && CodeAt(m[f].code, s.ip, Encode(JumpIfZero(reg, skip))) && skip < 0x8000
    requires reg < |s.regs| && v.BoolV? && Rep(m, s.heap, v, s.regs[reg])
    requires t == s.(ip := if v.b then s.ip + 4 else s.ip + 4 + skip)
    ensures M.Reaches(m, f, s, 1, t)
  {
    M.ReachesStep(m, f, s, JumpIfZero(reg, skip), t);
  }

  lemma TestDone(m: Module, f: nat, base: nat, c: Context, q: Expr, size: nat, reg: Byte, v: Value,
                 s: State, k: nat, s0: State, t: State)
    requires WellFormed(c) && Ran(m, f, c.registers, Overwrites(base, c, q), size, reg, v, s, k, s0)
    requires M.Reaches(m, f, s0, 1, t) && t.regs == s0.regs && t.heap == s0.heap
    ensures Tested(m, f, base, c, q, s, k + 1, t) && Keeps(s.heap, t.heap)
    ensures Preserved(c.registers, Overwrites(base, c, q), s.regs, t.regs)
  {
    hide Rep, M.Reaches, Overwrites;
    M.ReachesTrans(m, f, s, k, s0, 1, t);
    PrefixKeeps(s.heap, t.heap);
  }

  /** How many bytes the jump of a test skips. */
  function Skipped(c: Context, y: Emit): nat {
    |y.code| + |MoveCode(y.reg, ResultOf(c, y.reg))| + 3
  }

  /** The test has been evaluated and the jump taken or not: the chosen branch is ready to run. */
  lemma {:induction false} SimulateTest(m: Module, f: nat, base: nat, c: Context, q: Expr, a: Expr, b: Expr,
                                        env: Env, fuel: nat, s: State)
    returns (k: nat, t: State)
    requires Fits(m) && WellFormed(c) && Ready(m, f, c, FreeVars(If(q, a, b)), env, s) && SafeIf(base, c, q, a, b)
    requires Placed(m, f, base, EmitIf(base, c, q, a, b), s.ip)
    requires Eval(q, env, fuel).Val? && Eval(q, env, fuel).v.BoolV?
    ensures var x := Gen(base, c, q);
            var d := Branches(x.context);
            var y := Gen(base + |x.funcs|, d, a);
            && Tested(m, f, base, c, q, s, k, t) && |t.regs| == m[f].registerCount
            && if Eval(q, env, fuel).v.b
               then t.ip == s.ip + |x.code| + 4 && Ready(m, f, d, FreeVars(a), env, t)
               else t.ip == s.ip + |x.code| + 4 + Skipped(x.context, y) && Ready(m, f, y.context, FreeVars(b), env, t)
    decreases fuel, If(q, a, b), 0
  {
    hide *;
    var e := If(q, a, b);
    var x := Gen(base, c, q);
    var d := Branches(x.context);
    var y := Gen(base + |x.funcs|, d, a);
    var skip := Skipped(x.context, y);
    TestPlaced(m, f, base, c, q, a, b, s.ip);
    PlacedRegisters(m, f, base, EmitIf(base, c, q, a, b), s.ip);
    SafeIfParts(base, c, q, a, b);
    IfVars(q, a, b);
    ReadyFewer(m, f, c, FreeVars(e), FreeVars(q), env, s);
    var k0, s0 := Simulate(m, f, base, c, q, env, fuel, s);
    var v := Eval(q, env, fuel).v;
    RanParts(m, f, c.registers, Overwrites(base, c, q), |x.code|, x.reg, v, s, k0, s0);
    t := s0.(ip := if v.b then s0.ip + 4 else s0.ip + 4 + skip);
    TestStep(m, f, s0, x.reg, skip, v, t);
    k := k0 + 1;
    TestDone(m, f, base, c, q, |x.code|, x.reg, v, s, k0, s0, t);
    var vars, d' := if v.b then FreeVars(a) else FreeVars(b), if v.b then d else y.context;
    ReadyFewer(m, f, c, FreeVars(e), vars, env, s);
    ApartFewer(c, FreeVars(a) + FreeVars(b), vars, Overwrites(base, c, q));
    GrowsTrans(c, x.context, d);
    GrowsTrans(c, d, y.context);
    ReadyKeeps(m, f, c, d', vars, env, s, t, Overwrites(base, c, q));
    ReadyFrame(m, f, d', vars, env, t);
  }

  lemma TestPlaced(m: Module, f: nat, base: nat, c: Context, q: Expr, a: Expr, b: Expr, ip: int)
    requires Fits(m) && WellFormed(c) && Placed(m, f, base, EmitIf(base, c, q, a, b), ip)
    ensures var x := Gen(base, c, q);
            var y := Gen(base + |x.funcs|, Branches(x.context), a);
            var skip := Skipped(x.context, y);
            && f < |m| && ip >= 0 && CodeAt(m[f].code, ip + |x.code|, Encode(JumpIfZero(x.reg, skip))) && skip < 0x8000
            && Placed(m, f, base, x, ip)
  {
    hide *;
    IfPlaced(m, f, base, c, q, a, b, ip);
    var x := Gen(base, c, q);
    SkippedIs(x.context, Gen(base + |x.funcs|, Branches(x.context), a));
    PlacedRegisters(m, f, base, x, ip);
  }

  lemma SkippedIs(c: Context, y: Emit)
    ensures Skipped(c, y) == |y.code| + |MoveCode(y.reg, ResultOf(c, y.reg))| + 3
  {
  }

  lemma {:induction false} SimulateIf(m: Module, f: nat, base: nat, c: Context, q: Expr, a: Expr, b: Expr,
                                      env: Env, fuel: nat, s: State)
    returns (k: nat, t: State)
    requires var e := If(q, a, b);
             && Fits(m) && WellFormed(c) && Ready(m, f, c, FreeVars(e), env, s) && SafeIf(base, c, q, a, b)
             && Placed(m, f, base, EmitIf(base, c, q, a, b), s.ip) && Eval(e, env, fuel).Val?
    ensures var e := If(q, a, b);
            var r := EmitIf(base, c, q, a, b);
            Ran(m, f, c.registers, OverwritesIf(base, c, q, a, b), |r.code|, r.reg, Eval(e, env, fuel).v, s, k, t)
    decreases fuel, If(q, a, b), 1
  {
    hide Gen, Safe, Bound, M.Reaches, FuncsAt, CodeAt, M.Run, EmitIf, LittleEndian, Overwrites, OverwritesIf, SafeIf;
    var k1, s1 := SimulateTest(m, f, base, c, q, a, b, env, fuel, s);
    if Eval(q, env, fuel).v.b {
      k, t := SimulateThen(m, f, base, c, q, a, b, env, fuel, s, k1, s1);
    } else {
      k, t := SimulateElse(m, f, base, c, q, a, b, env, fuel, s, k1, s1);
    }
  }

  /** The test of an `if` has brought the machine from `s` to `s1`. */
  ghost predicate Tested(m: Module, f: nat, base: nat, c: Context, q: Expr, s: State, k: nat, s1: State)
    requires WellFormed(c)
  {
    && f < |m| && M.Reaches(m, f, s, k, s1) && s.heap <= s1.heap
    && Preserved(c.registers, Overwrites(base, c, q), s.regs, s1.regs)
  }

  /** After the test, a branch runs in a context with more registers taken, and then the machine
      gets from its end to the end of the `if` without changing more than the result register. */
  lemma BranchDone(m: Module, f: nat, base: nat, c: Context, q: Expr, s: State, k1: nat, s1: State,
                   n: nat, over: set<Byte>, size: nat, reg: Byte, v: Value, k2: nat, s2: State,
                   all: set<Byte>, k3: nat, t: State, whole: nat, out: Byte)
    requires WellFormed(c) && Tested(m, f, base, c, q, s, k1, s1) && c.registers <= n
    requires Ran(m, f, n, over, size, reg, v, s1, k2, s2) && reg < |s2.regs|
    requires Overwrites(base, c, q) <= all && over <= all
    requires M.Reaches(m, f, s2, k3, t) && t.ip == s.ip + whole && t.heap == s2.heap && out < |s2.regs|
    requires if out == reg then t.regs == s2.regs
             else (out >= c.registers || out in all) && t.regs == s2.regs[out := s2.regs[reg]]
    ensures Ran(m, f, c.registers, all, whole, out, v, s, k1 + k2 + k3, t)
  {
    hide Rep, M.Reaches, Overwrites;
    M.ReachesTrans(m, f, s, k1, s1, k2, s2);
    M.ReachesTrans(m, f, s, k1 + k2, s2, k3, t);
  }

  lemma JumpStep(m: Module, f: nat, s: State, off: nat, t: State)
    requires f < |m| && s.ip >= 0 && CodeAt(m[f].code, s.ip, Encode(Jump(off))) && off < 0x8000
    requires t == s.(ip := s.ip + 3 + off)
    ensures M.Reaches(m, f, s, 1, t)
  {
    M.ReachesStep(m, f, s, Jump(off), t);
  }

  /** A branch has run; copying its value makes it the result. */
  lemma CopyOut(m: Module, f: nat, s: State, from: Byte, to: Byte) returns (k: nat, t: State)
    requires f < |m| && s.ip >= 0 && CodeAt(m[f].code, s.ip, MoveCode(from, to)) && from < |s.regs| && to < |s.regs|
    ensures M.Reaches(m, f, s, k, t) && t.ip == s.ip + |MoveCode(from, to)| && t.heap == s.heap
    ensures if to == from then t.regs == s.regs else t.regs == s.regs[to := s.regs[from]]
  {
    hide M.Reaches;
    if from == to {
      ReachesNothing(m, f, s);
      k, t := 0, s;
    } else {
      k := 1;
      t := MoveStep(m, f, s, from, to);
    }
  }

  /** The registers of the result: a new one, or as written that of the then-branch. */
  lemma ResultRegister(m: Module, f: nat, base: nat, c: Context, q: Expr, a: Expr, b: Expr, ip: int)
    requires Fits(m) && WellFormed(c) && Scoped(c) && SafeIf(base, c, q, a, b)
    requires Placed(m, f, base, EmitIf(base, c, q, a, b), ip)
    ensures var x := Gen(base, c, q);
            var y := Gen(base + |x.funcs|, Branches(x.context), a);
            var z := Gen(base + |x.funcs| + |y.funcs|, y.context, b);
            var out := ResultOf(x.context, y.reg);
            && out < m[f].registerCount
            && (out != y.reg ==> out >= c.registers)
            && (out != z.reg ==> out >= c.registers || out in OverwritesIf(base, c, q, a, b))
  {
    hide *;
    var x := Gen(base, c, q);
    var d := Branches(x.context);
    var y := Gen(base + |x.funcs|, d, a);
    SafeIfParts(base, c, q, a, b);
    OverwritesIfParts(base, c, q, a, b);
    GrowsScoped(c, x.context);
    GrowsScoped(x.context, d);
    ResultTaken(base + |x.funcs|, d, a);
    ResultOfTaken(x.context, y);
    IfShape(base, c, q, a, b);
    GrowsVersion(c, x.context);
    PlacedFits(m, f, base, EmitIf(base, c, q, a, b), ip);
    NewResult(x.context, y.reg);
  }

  lemma PlacedFits(m: Module, f: nat, base: nat, r: Emit, ip: int)
    requires Fits(m) && Placed(m, f, base, r, ip)
    ensures r.context.registers <= m[f].registerCount <= 256
  {
  }

  lemma NewResult(c: Context, then_: Byte)
    requires WellFormed(c) && Branches(c).registers <= 256
    ensures if c.version.AsWritten? then ResultOf(c, then_) == then_ else ResultOf(c, then_) == c.registers
  {
  }

  lemma {:induction false} SimulateThen(m: Module, f: nat, base: nat, c: Context, q: Expr, a: Expr, b: Expr,
                                        env: Env, fuel: nat, s: State, k1: nat, s1: State)
    returns (k: nat, t: State)
    requires Fits(m) && WellFormed(c) && Scoped(c)
    requires Placed(m, f, base, EmitIf(base, c, q, a, b), s.ip) && SafeIf(base, c, q, a, b)
    requires Tested(m, f, base, c, q, s, k1, s1)
    requires var x := Gen(base, c, q);
             s1.ip == s.ip + |x.code| + 4 && Ready(m, f, Branches(x.context), FreeVars(a), env, s1)
    requires Eval(a, env, fuel).Val?
    ensures var r := EmitIf(base, c, q, a, b);
            Ran(m, f, c.registers, OverwritesIf(base, c, q, a, b), |r.code|, r.reg, Eval(a, env, fuel).v, s, k, t)
    decreases fuel, If(q, a, b), 0
  {
    hide *;
    var x := Gen(base, c, q);
    var d := Branches(x.context);
    var y := Gen(base + |x.funcs|, d, a);
    var z := Gen(base + |x.funcs| + |y.funcs|, y.context, b);
    var out := ResultOf(x.context, y.reg);
    var all := OverwritesIf(base, c, q, a, b);
    IfPlaced(m, f, base, c, q, a, b, s.ip);
    PlacedRegisters(m, f, base, EmitIf(base, c, q, a, b), s.ip);
    SafeIfParts(base, c, q, a, b);
    OverwritesIfParts(base, c, q, a, b);
    ResultRegister(m, f, base, c, q, a, b, s.ip);
    GrowsVersion(c, x.context);
    var k2, s2 := Simulate(m, f, base + |x.funcs|, d, a, env, fuel, s1);
    var v := Eval(a, env, fuel).v;
    RanParts(m, f, d.registers, Overwrites(base + |x.funcs|, d, a), |y.code|, y.reg, v, s1, k2, s2);
    ReadyFrame(m, f, d, FreeVars(a), env, s1);
    var k3, s3 := CopyOut(m, f, s2, y.reg, out);
    var end := |z.code| + |MoveCode(z.reg, out)|;
    t := s3.(ip := s3.ip + 3 + end);
    JumpStep(m, f, s3, end, t);
    M.ReachesTrans(m, f, s2, k3, s3, 1, t);
    k := k1 + k2 + (k3 + 1);
    BranchDone(m, f, base, c, q, s, k1, s1, d.registers, Overwrites(base + |x.funcs|, d, a), |y.code|,
               y.reg, v, k2, s2, all, k3 + 1, t, |EmitIf(base, c, q, a, b).code|, out);
  }

  lemma {:induction false} SimulateElse(m: Module, f: nat, base: nat, c: Context, q: Expr, a: Expr, b: Expr,
                                        env: Env, fuel: nat, s: State, k1: nat, s1: State)
    returns (k: nat, t: State)
    requires Fits(m) && WellFormed(c) && Scoped(c)
    requires Placed(m, f, base, EmitIf(base, c, q, a, b), s.ip) && SafeIf(base, c, q, a, b)
    requires Tested(m, f, base, c, q, s, k1, s1)
    requires var x := Gen(base, c, q);
             var y := Gen(base + |x.funcs|, Branches(x.context), a);
             && s1.ip == s.ip + |x.code| + 4 + Skipped(x.context, y)
             && f < |m| && |s1.regs| == m[f].registerCount && Ready(m, f, y.context, FreeVars(b), env, s1)
    requires Eval(b, env, fuel).Val?
    ensures var r := EmitIf(base, c, q, a, b);
            Ran(m, f, c.registers, OverwritesIf(base, c, q, a, b), |r.code|, r.reg, Eval(b, env, fuel).v, s, k, t)
    decreases fuel, If(q, a, b), 0
  {
    hide *;
    ElsePlaced(m, f, base, c, q, a, b, s.ip);
    var x := Gen(base, c, q);
    var y := Gen(base + |x.funcs|, Branches(x.context), a);
    var z := Gen(base + |x.funcs| + |y.funcs|, y.context, b);
    var out := ResultOf(x.context, y.reg);
    var all := OverwritesIf(base, c, q, a, b);
    var over := Overwrites(base + |x.funcs| + |y.funcs|, y.context, b);
    SafeIfParts(base, c, q, a, b);
    OverwritesIfParts(base, c, q, a, b);
    ResultRegister(m, f, base, c, q, a, b, s.ip);
    GrowsVersion(c, x.context);
    GrowsVersion(x.context, Branches(x.context));
    GrowsVersion(Branches(x.context), y.context);
    PlacedRegisters(m, f, base + |x.funcs| + |y.funcs|, z, s1.ip);
    var k2, s2 := Simulate(m, f, base + |x.funcs| + |y.funcs|, y.context, b, env, fuel, s1);
    var v := Eval(b, env, fuel).v;
    RanParts(m, f, y.context.registers, over, |z.code|, z.reg, v, s1, k2, s2);
    var k3;
    k3, t := CopyOut(m, f, s2, z.reg, out);
    k := k1 + k2 + k3;
    BranchDone(m, f, base, c, q, s, k1, s1, y.context.registers, over, |z.code|, z.reg, v, k2, s2, all, k3, t,
               |EmitIf(base, c, q, a, b).code|, out);
  }

  lemma ElsePlaced(m: Module, f: nat, base: nat, c: Context, q: Expr, a: Expr, b: Expr, ip: int)
    requires Fits(m) && WellFormed(c) && Placed(m, f, base, EmitIf(base, c, q, a, b), ip)
    ensures var x := Gen(base, c, q);
            var y := Gen(base + |x.funcs|, Branches(x.context), a);
            var z := Gen(base + |x.funcs| + |y.funcs|, y.context, b);
            var out := ResultOf(x.context, y.reg);
            var at := ip + |x.code| + 4 + Skipped(x.context, y);
            && Placed(m, f, base + |x.funcs| + |y.funcs|, z, at) &&
               CodeAt(m[f].code, at + |z.code|, MoveCode(z.reg, out))
            && ip + |EmitIf(base, c, q, a, b).code| == at + |z.code| + |MoveCode(z.reg, out)|
            && EmitIf(base, c, q, a, b).reg == out && ip >= 0
  {
    hide *;
    IfPlaced(m, f, base, c, q, a, b, ip);
    var x := Gen(base, c, q);
    SkippedIs(x.context, Gen(base + |x.funcs|, Branches(x.context), a));
    PlacedRegisters(m, f, base, x, ip);
  }

  lemma PlacedRegisters(m: Module, f: nat, base: nat, r: Emit, ip: int)
    requires Placed(m, f, base, r, ip)
    ensures f < |m| && r.context.registers <= m[f].registerCount && ip >= 0
  {
  }

  lemma MoveStep(m: Module, f: nat, s: State, from: Byte, to: Byte) returns (t: State)
    requires f < |m| && s.ip >= 0 && CodeAt(m[f].code, s.ip, MoveCode(from, to)) && from != to
    requires from < |s.regs| && to < |s.regs|
    ensures M.Reaches(m, f, s, 1, t) && t == M.State(s.ip + |MoveCode(from, to)|, s.regs[to := s.regs[from]], s.heap)
  {
    t := SetsRegister(m, f, s, Move(from, to), to, s.regs[from], s.heap);
  }

  // ----- Calls -----

  /** Calling function `g` takes `k` instructions and yields `w` and heap `t`. */
  ghost predicate Returns(m: Module, g: nat, closure: Word, arg: Word, h: Heap, k: nat, w: Word, t: Heap)
    requires g < |m|
  {
    forall fuel: nat :: M.Enter(m, g, closure, arg, h, k + fuel) == M.Done(w, t, fuel)
  }

  /** A closure names its function, whether its record is static or allocated. */
  lemma ClosureFunction(m: Module, h: Heap, c: Value, w: Word) returns (g: nat)
    requires Fits(m) && c.ClosureV? && Rep(m, h, c, w)
    ensures g < |m| && M.Load(m, h, w, 0) == Some(M.Num(g)) && FunctionFor(m, g, c.self, c.param, c.body)
    ensures M.IsClosure(m, h, w)
  {
    hide Gen, Safe;
    g := if w.Static? then w.func else h[w.addr][0].w.n;
  }

  /** When a function is entered, its parameter, its own name and the symbols it captured are
      all where its code expects them. */
  lemma BodyReady(v: Version, m: Module, h: Heap, c: Value, w: Word, g: nat, arg: Value, aw: Word)
    requires Fits(m) && c.ClosureV? && Rep(m, h, c, w) && Rep(m, h, arg, aw)
    requires g < |m| && M.Load(m, h, w, 0) == Some(M.Num(g)) && FunctionAs(v, m, g, c.self, c.param, c.body)
    ensures m[g].registerCount >= 2
    ensures Ready(m, g, BodyContext(v, c.self, c.param), FreeVars(c.body), CallEnv(c, arg),
                  M.State(0, M.Frame(m[g].registerCount, w, aw), h))
  {
    hide Gen, Safe, IndexOf;
    var body := BodyContext(v, c.self, c.param);
    var s := M.State(0, M.Frame(m[g].registerCount, w, aw), h);
    FunctionSymbols(v, m, g, c.self, c.param, c.body);
    forall id | id in FreeVars(c.body) ensures Bound(m, m[g].closure, body, CallEnv(c, arg), id, s) {
      FindBody(v, c.self, c.param, id);
      assert id == c.self && c.self != INVALID_SYMBOL ==> RepVar(m, h, Bind(c.self, c, c.env), id, w);
      if Find(body, id) == None {
        var i := IndexOf(m[g].closure, id);
        assert id in FunctionVars(c.self, c.param, c.body);
        var u := h[w.addr][i + 1].w;
        assert RepVar(m, h, c.env, m[g].closure[i], u);
        assert c.self != INVALID_SYMBOL ==> RepVar(m, h, Bind(c.self, c, c.env), id, u);
      }
    }
  }

  lemma FunctionSymbols(v: Version, m: Module, g: nat, self: Symbol, param: Symbol, body: Expr)
    requires FunctionAs(v, m, g, self, param, body)
    ensures Elements(m[g].closure) == FunctionVars(self, param, body)
  {
    hide Gen, Safe, Sees;
    var c := BodyContext(v, self, param);
    SafeSees(g + 1, c, body);
    ClosureIsFreeVars(g + 1, c, body);
    forall s ensures Find(c, s) == None <==> s != param && (self == INVALID_SYMBOL || s != self) {
      FindBody(v, self, param, s);
    }
    assert Unbound(c, FreeVars(body)) == FunctionVars(self, param, body);
  }

  /** A call of a represented closure returns what the body evaluates to. */
  lemma {:induction false} SimulateFunction(m: Module, g: nat, c: Value, w: Word, arg: Value, aw: Word, h: Heap,
                                            fuel: nat)
    returns (k: nat, r: Word, t: Heap)
    requires Fits(m) && c.ClosureV? && Rep(m, h, c, w) && Rep(m, h, arg, aw)
    requires g < |m| && M.Load(m, h, w, 0) == Some(M.Num(g)) && FunctionFor(m, g, c.self, c.param, c.body)
    requires Eval(c.body, CallEnv(c, arg), fuel).Val?
    ensures Returns(m, g, w, aw, h, k, r, t) && h <= t && Rep(m, t, Eval(c.body, CallEnv(c, arg), fuel).v, r)
    decreases fuel, c.body, 3
  {
    hide Gen, Safe, Rep, Bound, FuncsAt, CodeAt, M.Reaches, M.Run, CallEnv;
    var v: Version :| FunctionAs(v, m, g, c.self, c.param, c.body);
    var x := BodyContext(v, c.self, c.param);
    var child := Gen(g + 1, x, c.body);
    var s := M.State(0, M.Frame(m[g].registerCount, w, aw), h);
    BodyReady(v, m, h, c, w, g, arg, aw);
    FinishPlaced(m[g].code, child.code);
    var k0, s0 := Simulate(m, g, g + 1, x, c.body, CallEnv(c, arg), fuel, s);
    k, r, t := k0 + 1, s0.regs[child.reg], s0.heap;
    ReturnStep(m, g, w, aw, h, k0, s0);
  }

  lemma FinishPlaced(code: seq<Byte>, body: seq<Byte>)
    requires code == body + Encode(Ret)
    ensures CodeAt(code, 0, body) && CodeAt(code, |body|, Encode(Ret))
  {
    CodeAtSplit(code, 0, body, Encode(Ret));
  }

  lemma ReturnStep(m: Module, g: nat, w: Word, aw: Word, h: Heap, k: nat, t: State)
    requires g < |m| && m[g].registerCount >= 2
    requires M.Reaches(m, g, M.State(0, M.Frame(m[g].registerCount, w, aw), h), k, t)
    requires t.ip >= 0 && CodeAt(m[g].code, t.ip, Encode(Ret)) && m[g].resultRegister < |t.regs|
    ensures Returns(m, g, w, aw, h, k + 1, t.regs[m[g].resultRegister], t.heap)
  {
    var s := M.State(0, M.Frame(m[g].registerCount, w, aw), h);
    FetchEncoded(m[g].code, t.ip, Ret);
    forall fuel: nat
      ensures M.Enter(m, g, w, aw, h, k + 1 + fuel) == M.Done(t.regs[m[g].resultRegister], t.heap, fuel)
    {
      assert M.Run(m, g, s, k + (1 + fuel)) == M.Run(m, g, t, 1 + fuel);
    }
  }

  lemma CallStep(m: Module, f: nat, s: State, i: Instr, g: nat, k: nat, w: Word, h: Heap, t: State)
    requires f < |m| && g < |m| && g < 0x8000_0000 && i.Call? && s.ip >= 0 && CodeAt(m[f].code, s.ip, Encode(i))
    requires i.funcReg < |s.regs| && i.argReg < |s.regs| && i.dst < |s.regs|
    requires M.IsClosure(m, s.heap, s.regs[i.funcReg]) && M.Load(m, s.heap, s.regs[i.funcReg], 0) == Some(M.Num(g))
    requires Returns(m, g, s.regs[i.funcReg], s.regs[i.argReg], s.heap, k, w, h)
    requires t == M.State(s.ip + 4, s.regs[i.dst := w], h)
    ensures M.Reaches(m, f, s, k + 1, t)
  {
    FetchEncoded(m[f].code, s.ip, i);
    forall fuel: nat ensures M.Run(m, f, s, k + 1 + fuel) == M.Run(m, f, t, fuel) {
      assert M.Enter(m, g, s.regs[i.funcReg], s.regs[i.argReg], s.heap, k + fuel) == M.Done(w, h, fuel);
    }
  }

  lemma {:induction false} SimulateApply(m: Module, f: nat, base: nat, c: Context, l: Expr, r: Expr,
                                         env: Env, fuel: nat, s: State)
    returns (k: nat, t: State)
    requires var e := Apply(l, r);
             && Fits(m) && f < |m| && WellFormed(c) && |s.regs| == m[f].registerCount &&
                Ready(m, f, c, FreeVars(l) + FreeVars(r), env, s) && SafeBoth(base, c, l, r, e)
             && Placed(m, f, base, EmitApply(base, c, l, r), s.ip) && Eval(e, env, fuel).Val?
    ensures var e := Apply(l, r);
            var z := EmitApply(base, c, l, r);
            Ran(m, f, c.registers, OverwritesBoth(base, c, l, r, e), |z.code|, z.reg, Eval(e, env, fuel).v, s, k, t)
    decreases fuel, Apply(l, r), 1
  {
    hide Ready, Gen, Safe, SafeBoth, Rep, Bound, M.Reaches, Overwrites, OverwritesBoth, CodeAt, FuncsAt, M.Run, M.Load,
         FunctionFor, CallEnv, M.Step, M.Execute, M.IsClosure, Returns, Keeps;
    var e := Apply(l, r);
    var x := Gen(base, c, l);
    var y := Gen(base + |x.funcs|, x.context, r);
    var z := EmitApply(base, c, l, r);
    var i := Call(x.reg, y.reg, z.reg);
    PlacedTwo(m, f, base, x, y, z, Encode(i), s.ip);
    var k0, s0 := SimulateBoth(m, f, base, c, l, r, e, env, fuel, s);
    var fv := Eval(l, env, fuel).v;
    var av := Eval(r, env, fuel).v;
    var fw, aw := s0.regs[x.reg], s0.regs[y.reg];
    var g := ClosureFunction(m, s0.heap, fv, fw);
    var k1, w, h := SimulateFunction(m, g, fv, fw, av, aw, s0.heap, fuel - 1);
    var s1 := M.State(s0.ip + 4, s0.regs[z.reg := w], h);
    CallStep(m, f, s0, i, g, k1, w, h, s1);
    M.ReachesTrans(m, f, s, k0, s0, k1 + 1, s1);
    k, t := k0 + (k1 + 1), s1;
  }

  // ----- Tuples -----

  /** Object `a` is a tuple of `|vs|` slots, the first `i` of which hold the values of `vs`. */
  ghost predicate FillingTuple(m: Module, h: Heap, a: nat, vs: seq<Value>, i: nat) {
    && a < |h| && |h[a]| == |vs| && i <= |vs|
    && (forall j :: 0 <= j < i ==> h[a][j].Written? && Rep(m, h, vs[j], h[a][j].w))
    && (forall j :: i <= j < |vs| ==> h[a][j] == M.Uninit)
  }

  lemma FillingTupleStep(m: Module, h: Heap, h': Heap, a: nat, vs: seq<Value>, i: nat, w: Word)
    requires FillingTuple(m, h, a, vs, i) && i < |vs| && h <= h' && Rep(m, h', vs[i], w)
    ensures a < |h'| && i < |h'[a]|
    ensures var h'' := h'[a := h'[a][i := M.Written(w)]];
            Keeps(h, h'') && FillingTuple(m, h'', a, vs, i + 1)
  {
    hide Rep;
    assert h'[a] == h[a] && h[a][i] == M.Uninit;
    var h'' := h'[a := h'[a][i := M.Written(w)]];
    assert Keeps(h', h'');
    PrefixKeeps(h, h');
    KeepsTrans(h, h', h'');
    forall j | 0 <= j < i + 1 ensures h''[a][j].Written? && Rep(m, h'', vs[j], h''[a][j].w) {
      if j < i { RepKeeps(m, h, h'', vs[j], h[a][j].w); } else { RepKeeps(m, h', h'', vs[i], w); }
    }
    assert forall j :: i + 1 <= j < |vs| ==> h''[a][j] == h[a][j];
  }

  lemma {:induction false} MembersSize(base: nat, c: Context, target: Byte, ms: seq<Expr>, i: nat, whole: Expr)
    requires WellFormed(c) && i <= |ms| && forall m :: m in ms ==> m < whole
    ensures |EmitMembers(base, c, target, ms, i, whole).code| >= 5 * (|ms| - i)
    decreases |ms| - i
  {
    hide Gen, LittleEndian;
    if i < |ms| {
      assert ms[i] in ms;
      var v := Gen(base, c, ms[i]);
      MembersSize(base + |v.funcs|, v.context, target, ms, i + 1, whole);
    }
  }

  lemma MembersPlaced(m: Module, f: nat, base: nat, c: Context, target: Byte, ms: seq<Expr>, i: nat, whole: Expr,
                      ip: int)
    requires WellFormed(c) && i < |ms| && forall m :: m in ms ==> m < whole
    requires Placed(m, f, base, EmitMembers(base, c, target, ms, i, whole), ip)
    ensures var v := Gen(base, c, ms[i]);
            var rest := EmitMembers(base + |v.funcs|, v.context, target, ms, i + 1, whole);
            && Placed(m, f, base, v, ip)
            && CodeAt(m[f].code, ip + |v.code|, Encode(StoreSlot(target, i, v.reg)))
            && Placed(m, f, base + |v.funcs|, rest, ip + |v.code| + 5)
            && |EmitMembers(base, c, target, ms, i, whole).code| == |v.code| + 5 + |rest.code|
  {
    hide Gen, LittleEndian;
    var v := Gen(base, c, ms[i]);
    var rest := EmitMembers(base + |v.funcs|, v.context, target, ms, i + 1, whole);
    var store := Encode(StoreSlot(target, i, v.reg));
    CodeAtSplit(m[f].code, ip, v.code + store, rest.code);
    CodeAtSplit(m[f].code, ip, v.code, store);
    FuncsAtSplit(m, base, v.funcs, rest.funcs);
  }

  /** The expressions of `ms` evaluate to the values of `vs`. */
  ghost predicate Values(ms: seq<Expr>, env: Env, fuel: nat, vs: seq<Value>) {
    |ms| == |vs| && forall i :: 0 <= i < |ms| ==> Eval(ms[i], env, fuel) == Val(vs[i])
  }

  /** Filling one slot of a tuple. */
  lemma {:induction false} SimulateMember(m: Module, f: nat, base: nat, c: Context, target: Byte, ms: seq<Expr>,
                                          i: nat, whole: Expr, vs: seq<Value>, a: nat, env: Env, fuel: nat, s: State)
    returns (k: nat, t: State)
    requires Fits(m) && WellFormed(c) && i < |ms| < 0x8000 && (forall m :: m in ms ==> m < whole)
    requires Ready(m, f, c, MembersVars(ms, i), env, s) && SafeMembers(base, c, target, ms, i, whole)
    requires Placed(m, f, base, EmitMembers(base, c, target, ms, i, whole), s.ip)
    requires |vs| == |ms| && Eval(ms[i], env, fuel) == Val(vs[i])
    requires target < c.registers && target < |s.regs| && s.regs[target] == M.Ptr(a)
    requires FillingTuple(m, s.heap, a, vs, i)
    ensures var v := Gen(base, c, ms[i]);
            && M.Reaches(m, f, s, k, t) && t.ip == s.ip + |v.code| + 5
            && Preserved(c.registers, Overwrites(base, c, ms[i]), s.regs, t.regs) && t.regs[target] == M.Ptr(a)
            && FillingTuple(m, t.heap, a, vs, i + 1) && Ready(m, f, v.context, MembersVars(ms, i + 1), env, t)
            && |s.heap| <= |t.heap| && forall b :: 0 <= b < |s.heap| && b != a ==> t.heap[b] == s.heap[b]
    decreases fuel, whole, 0, |ms| - i, 0
  {
    hide Grows, Gen, Safe, Rep, Bound, M.Reaches, CodeAt, FuncsAt, M.Run, Eval, Overwrites, Placed, Encode, Complete,
         Apart;
    assert ms[i] in ms;
    var v := Gen(base, c, ms[i]);
    MembersPlaced(m, f, base, c, target, ms, i, whole, s.ip);
    ReadyFewer(m, f, c, MembersVars(ms, i), FreeVars(ms[i]), env, s);
    ReadyFewer(m, f, c, MembersVars(ms, i), MembersVars(ms, i + 1), env, s);
    var k0, s0 := Simulate(m, f, base, c, ms[i], env, fuel, s);
    var w := s0.regs[v.reg];
    FillingTupleStep(m, s.heap, s0.heap, a, vs, i, w);
    t := M.State(s0.ip + 5, s0.regs, s0.heap[a := s0.heap[a][i := M.Written(w)]]);
    assert |Encode(StoreSlot(target, i, v.reg))| == 5 by { StoreSize(target, i, v.reg); }
    StoreSteps(m, f, s0, target, i, v.reg, a, t);
    M.ReachesTrans(m, f, s, k0, s0, 1, t);
    ReadyKeeps(m, f, c, v.context, MembersVars(ms, i + 1), env, s, t, Overwrites(base, c, ms[i]));
    k := k0 + 1;
  }

  lemma StoreSize(target: Byte, slot: nat, src: Byte)
    ensures |Encode(StoreSlot(target, slot, src))| == 5
  {
  }

  /** Filling the slots of a tuple from slot `i` on. */
  lemma {:induction false} SimulateMembers(m: Module, f: nat, base: nat, c: Context, target: Byte, ms: seq<Expr>,
                                           i: nat, whole: Expr, vs: seq<Value>, a: nat, env: Env, fuel: nat, s: State)
    returns (k: nat, t: State)
    requires Fits(m) && WellFormed(c) && i <= |ms| < 0x8000 && (forall m :: m in ms ==> m < whole)
    requires Ready(m, f, c, MembersVars(ms, i), env, s) && SafeMembers(base, c, target, ms, i, whole)
    requires Placed(m, f, base, EmitMembers(base, c, target, ms, i, whole), s.ip)
    requires Values(ms, env, fuel, vs)
    requires target < c.registers && target < |s.regs| && s.regs[target] == M.Ptr(a)
    requires FillingTuple(m, s.heap, a, vs, i)
    ensures M.Reaches(m, f, s, k, t) && t.ip == s.ip + |EmitMembers(base, c, target, ms, i, whole).code|
    ensures Preserved(c.registers, OverwritesMembers(base, c, ms, i, whole), s.regs, t.regs)
    ensures t.regs[target] == M.Ptr(a)
    ensures FillingTuple(m, t.heap, a, vs, |vs|)
    ensures |s.heap| <= |t.heap| && forall b :: 0 <= b < |s.heap| && b != a ==> t.heap[b] == s.heap[b]
    decreases fuel, whole, 0, |ms| - i, 1
  {
    hide Grows, Gen, Safe, Rep, Bound, M.Reaches, CodeAt, FuncsAt, M.Run, Eval, FillingTuple, Overwrites, Placed,
         Encode, Complete, Ready, Apart;
    ReadyFrame(m, f, c, MembersVars(ms, i), env, s);
    if i == |ms| {
      ReachesNothing(m, f, s);
      k, t := 0, s;
    } else {
      assert ms[i] in ms;
      var v := Gen(base, c, ms[i]);
      MembersPlaced(m, f, base, c, target, ms, i, whole, s.ip);
      var k0, s1 := SimulateMember(m, f, base, c, target, ms, i, whole, vs, a, env, fuel, s);
      GrowsVersion(c, v.context);
      var k1, s2 := SimulateMembers(m, f, base + |v.funcs|, v.context, target, ms, i + 1, whole, vs, a, env, fuel, s1);
      M.ReachesTrans(m, f, s, k0, s1, k1, s2);
      k, t := k0 + k1, s2;
    }
  }

  lemma TuplePlaced(m: Module, f: nat, base: nat, c: Context, e: Expr, ip: int)
    requires WellFormed(c) && e.Tuple? && Fits(m) && Placed(m, f, base, EmitTuple(base, c, e), ip)
    requires |Compiled(c.version, e)| == e.length
    ensures var n, ms := e.length, Compiled(c.version, e);
            var len := EmitLiteral(c, n);
            var out := NewRegister(len.context);
            var members := EmitMembers(base, Allocate(len.context), out, ms, 0, e);
            && Placed(m, f, base, len, ip) && CodeAt(m[f].code, ip + |len.code|, Encode(NewTuple(len.reg, out)))
            && Placed(m, f, base, members, ip + |len.code| + 3) && n < 0x8000
            && c.registers + 2 <= m[f].registerCount
            && EmitTuple(base, c, e).reg == out
            && |EmitTuple(base, c, e).code| == |len.code| + 3 + |members.code|
  {
    hide Gen, LittleEndian, Compiled;
    var n, ms := e.length, Compiled(c.version, e);
    var len := EmitLiteral(c, n);
    var out := NewRegister(len.context);
    var members := EmitMembers(base, Allocate(len.context), out, ms, 0, e);
    var make := Encode(NewTuple(len.reg, out));
    CodeAtSplit(m[f].code, ip, len.code + make, members.code);
    CodeAtSplit(m[f].code, ip, len.code, make);
    MembersSize(base, Allocate(len.context), out, ms, 0, e);
  }

  lemma FilledTupleRep(m: Module, h: Heap, a: nat, vs: seq<Value>)
    requires FillingTuple(m, h, a, vs, |vs|)
    ensures Rep(m, h, TupleV(vs), M.Ptr(a))
  {
  }

  lemma FillingTupleStart(m: Module, h: Heap, a: nat, vs: seq<Value>)
    requires a < |h| && h[a] == M.AllocateTuple(|vs|)
    ensures FillingTuple(m, h, a, vs, 0)
  {
  }

  lemma SimulateNewTuple(m: Module, f: nat, c: Context, n: U64, s: State) returns (t: State)
    requires var len := EmitLiteral(c, n);
             && f < |m| && s.ip >= 0 && c.registers + 2 <= |s.regs| <= 256
             && CodeAt(m[f].code, s.ip, len.code)
             && CodeAt(m[f].code, s.ip + |len.code|, Encode(NewTuple(len.reg, NewRegister(len.context))))
    ensures M.Reaches(m, f, s, 2, t) && t.ip == s.ip + |EmitLiteral(c, n).code| + 3
    ensures Preserved(c.registers, {}, s.regs, t.regs) && t.heap == s.heap + [M.AllocateTuple(n)]
    ensures t.regs[c.registers + 1] == M.Ptr(|s.heap|)
  {
    hide M.Reaches, M.Run, LittleEndian;
    var len := EmitLiteral(c, n);
    var out := NewRegister(len.context);
    var s1 := SetsRegister(m, f, s, LoadImmediate(n, len.reg), len.reg, M.Num(n), s.heap);
    t := SetsRegister(m, f, s1, NewTuple(len.reg, out), out, M.Ptr(|s.heap|), s.heap + [M.AllocateTuple(n)]);
    M.ReachesTrans(m, f, s, 1, s1, 1, t);
  }

  /** The code of a tuple builds the tuple of the values of what is compiled for its members. */
  lemma {:induction false} SimulateCompiled(m: Module, f: nat, base: nat, c: Context, e: Expr, vs: seq<Value>,
                                            env: Env, fuel: nat, s: State)
    returns (k: nat, t: State)
    requires e.Tuple? && Fits(m) && WellFormed(c) && |Compiled(c.version, e)| == e.length
    requires Ready(m, f, c, MembersVars(Compiled(c.version, e), 0), env, s)
    requires SafeMembers(base, Allocate(Allocate(c)), NewRegister(Allocate(c)), Compiled(c.version, e), 0, e)
    requires Placed(m, f, base, EmitTuple(base, c, e), s.ip) && Values(Compiled(c.version, e), env, fuel, vs)
    ensures var r := EmitTuple(base, c, e);
            Ran(m, f, c.registers, OverwritesMembers(base, Allocate(Allocate(c)), Compiled(c.version, e), 0, e),
                |r.code|, r.reg, TupleV(vs), s, k, t)
    decreases fuel, e, 0
  {
    hide Gen, Rep, Bound, M.Reaches, CodeAt, FuncsAt, M.Run, EvalMembers, FillingTuple, OverwritesMembers,
         SafeMembers, Encode, EmitTuple, EmitMembers, Compiled, M.AllocateTuple, Eval;
    var n, ms := e.length, Compiled(c.version, e);
    var d := Allocate(Allocate(c));
    var out := NewRegister(Allocate(c));
    TuplePlaced(m, f, base, c, e, s.ip);
    var s1 := SimulateNewTuple(m, f, c, n, s);
    var a := |s.heap|;
    PrefixKeeps(s.heap, s1.heap);
    ReadyKeeps(m, f, c, d, MembersVars(ms, 0), env, s, s1, {});
    FillingTupleStart(m, s1.heap, a, vs);
    var k1, s2 := SimulateMembers(m, f, base, d, out, ms, 0, e, vs, a, env, fuel, s1);
    M.ReachesTrans(m, f, s, 2, s1, k1, s2);
    FilledTupleRep(m, s2.heap, a, vs);
    k, t := 2 + k1, s2;
  }

  lemma {:induction false} SimulateTuple(m: Module, f: nat, base: nat, c: Context, e: Expr, env: Env, fuel: nat,
                                         s: State)
    returns (k: nat, t: State)
    requires e.Tuple? && Fits(m) && WellFormed(c) && Ready(m, f, c, FreeVars(e), env, s) && Safe(base, c, e)
    requires Placed(m, f, base, EmitTuple(base, c, e), s.ip) && Eval(e, env, fuel).Val?
    ensures var r := EmitTuple(base, c, e);
            Ran(m, f, c.registers, Overwrites(base, c, e), |r.code|, r.reg, Eval(e, env, fuel).v, s, k, t)
    decreases fuel, e, 1
  {
    hide Gen, Rep, Bound, M.Reaches, CodeAt, FuncsAt, M.Run, EvalMembers, OverwritesMembers, SafeMembers, EmitTuple,
         Ready, Placed, Ran;
    MembersEvaluate(e, e.length, env, fuel);
    ChainVars(e, e.length);
    k, t := SimulateCompiled(m, f, base, c, e, EvalMembers(e, env, fuel).vs, env, fuel, s);
  }
}
