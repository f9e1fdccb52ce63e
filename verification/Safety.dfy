/** When the compiler emits code that means what the source means.

    Three places of compiler.c, as it is written, can go wrong: the lookup may see a binding that
    is no longer in scope, the copy at the end of an `if` may overwrite a register that is still
    needed, and a tuple is filled with copies of its first member. `Safe` excludes exactly these
    events, and can be decided before the code is run. As the compiler is meant they cannot occur
    (see module PlainPrograms). */
module Safety {
  import opened Wrappers
  import opened Syntax
  import opened Bytecode
  import opened Machine
  import opened Codegen

  /** The lookup finds what is in scope. */
  predicate Fresh(c: Context, id: Symbol)
    requires WellFormed(c)
  {
    FindWritten(c, id) == Find(c, id)
  }

  /** The register through which a symbol is reached: its own, or that of the closure. */
  function Home(c: Context, id: Symbol): Byte
    requires WellFormed(c)
  {
    match Find(c, id) case Some(r) => r case None => 0
  }

  /** No variable of `vars` is reached through a register of `regs`. */
  predicate Apart(c: Context, vars: set<Symbol>, regs: set<Byte>)
    requires WellFormed(c)
  {
    forall s :: s in vars ==> Home(c, s) !in regs
  }

  /** The registers the code of `e` copies into at the end of an `if`. All its other writes go
      to registers that were free before. */
  function Overwrites(base: nat, c: Context, e: Expr): set<Byte>
    requires WellFormed(c)
    decreases e, 1
  {
    match e
    case Apply(f, a) => OverwritesBoth(base, c, f, a, e)
    case Binary(_, l, r) => OverwritesBoth(base, c, l, r, e)
    case Let(id, value, body) => OverwritesLet(base, c, id, value, body)
    case LetRec(id, value, body) => OverwritesLetRec(base, c, id, value, body)
    case If(t, a, b) => OverwritesIf(base, c, t, a, b)
    case Unary(_, a) => Overwrites(base, c, a)
    case Tuple(_, _, _) => OverwritesMembers(base, Allocate(Allocate(c)), Compiled(c.version, e), 0, e)
    case _ => {}
  }

  function OverwritesLet(base: nat, c: Context, id: Symbol, value: Expr, body: Expr): set<Byte>
    requires WellFormed(c)
    decreases Let(id, value, body), 0
  {
    var x := Gen(base, c, value);
    Overwrites(base, c, value) + Overwrites(base + |x.funcs|, Push(x.context, id, x.reg), body)
  }

  function OverwritesLetRec(base: nat, c: Context, id: Symbol, value: Expr, body: Expr): set<Byte>
    requires WellFormed(c)
    decreases LetRec(id, value, body), 0
  {
    var target := NewRegister(c);
    if !value.Lambda? then {} else
    var x := EmitLambda(base, Push(Allocate(c), id, target), id, value.param, value.body, target);
    Overwrites(base + |x.funcs|, x.context, body)
  }

  function OverwritesIf(base: nat, c: Context, t: Expr, a: Expr, b: Expr): set<Byte>
    requires WellFormed(c)
    decreases If(t, a, b), 0
  {
    var x := Gen(base, c, t);
    var d := Branches(x.context);
    var y := Gen(base + |x.funcs|, d, a);
    var z := Gen(base + |x.funcs| + |y.funcs|, y.context, b);
    Overwrites(base, c, t) + Overwrites(base + |x.funcs|, d, a)
    + Overwrites(base + |x.funcs| + |y.funcs|, y.context, b)
    + (if c.version.AsWritten? && z.reg != y.reg then {y.reg} else {})
  }

  function OverwritesBoth(base: nat, c: Context, l: Expr, r: Expr, ghost whole: Expr): set<Byte>
    requires WellFormed(c) && l < whole && r < whole
    decreases whole, 0
  {
    var x := Gen(base, c, l);
    Overwrites(base, c, l) + Overwrites(base + |x.funcs|, x.context, r)
  }

  function OverwritesMembers(base: nat, c: Context, ms: seq<Expr>, i: nat, ghost whole: Expr): set<Byte>
    requires WellFormed(c) && i <= |ms| && forall m :: m in ms ==> m < whole
    decreases whole, 0, |ms| - i
  {
    if i == |ms| then {} else
    assert ms[i] in ms;
    var v := Gen(base, c, ms[i]);
    Overwrites(base, c, ms[i]) + OverwritesMembers(base + |v.funcs|, v.context, ms, i + 1, whole)
  }

  /** `e`, compiled in context `c`, contains none of the three events, its lambdas included. */
  predicate Safe(base: nat, c: Context, e: Expr)
    requires WellFormed(c)
    decreases e, 3
  {
    match e
    case Identifier(id) => Fresh(c, id)
    case Lambda(param, body) => SafeLambda(base, Allocate(c), INVALID_SYMBOL, param, body)
    case Apply(f, a) => SafeBoth(base, c, f, a, e)
    case Binary(_, l, r) => SafeBoth(base, c, l, r, e)
    case Let(id, value, body) => SafeLet(base, c, id, value, body)
    case LetRec(id, value, body) => SafeLetRec(base, c, id, value, body)
    case If(t, a, b) => SafeIf(base, c, t, a, b)
    case Unary(_, a) => Safe(base, c, a)
    case Tuple(_, _, n) =>
      && Chain(e, n) && Compiled(c.version, e) == MembersOf(e, n)
      && SafeMembers(base, Allocate(Allocate(c)), NewRegister(Allocate(c)), MembersOf(e, n), 0, e)
    case Literal(_) => true
    case True => true
    case False => true
    case _ => false
  }

  predicate SafeLambda(base: nat, c: Context, self: Symbol, param: Symbol, body: Expr)
    requires WellFormed(c)
    decreases body, 4
  {
    && Safe(base + 1, BodyContext(c.version, self, param), body)
    && forall s :: s in Gen(base + 1, BodyContext(c.version, self, param), body).context.closure ==> Fresh(c, s)
  }

  /** Two operands: the second leaves the value of the first alone, and the first leaves alone
      what the second needs. */
  predicate SafeBoth(base: nat, c: Context, l: Expr, r: Expr, ghost whole: Expr)
    requires WellFormed(c) && l < whole && r < whole
    decreases whole, 2
  {
    var x := Gen(base, c, l);
    && Safe(base, c, l) && Safe(base + |x.funcs|, x.context, r)
    && Apart(c, FreeVars(r), Overwrites(base, c, l))
    && x.reg !in Overwrites(base + |x.funcs|, x.context, r)
  }

  predicate SafeLet(base: nat, c: Context, id: Symbol, value: Expr, body: Expr)
    requires WellFormed(c)
    decreases Let(id, value, body), 2
  {
    var x := Gen(base, c, value);
    && Safe(base, c, value) && Safe(base + |x.funcs|, Push(x.context, id, x.reg), body)
    && Apart(c, FreeVars(body) - {id}, Overwrites(base, c, value))
  }

  predicate SafeLetRec(base: nat, c: Context, id: Symbol, value: Expr, body: Expr)
    requires WellFormed(c)
    decreases LetRec(id, value, body), 2
  {
    var target := NewRegister(c);
    id != INVALID_SYMBOL && value.Lambda? &&
    var d := Push(Allocate(c), id, target);
    var x := EmitLambda(base, d, id, value.param, value.body, target);
    SafeLambda(base, d, id, value.param, value.body) && Safe(base + |x.funcs|, x.context, body)
  }

  predicate SafeIf(base: nat, c: Context, t: Expr, a: Expr, b: Expr)
    requires WellFormed(c)
    decreases If(t, a, b), 2
  {
    var x := Gen(base, c, t);
    var d := Branches(x.context);
    var y := Gen(base + |x.funcs|, d, a);
    && Safe(base, c, t) && Safe(base + |x.funcs|, d, a)
    && Safe(base + |x.funcs| + |y.funcs|, y.context, b)
    && Apart(c, FreeVars(a) + FreeVars(b), Overwrites(base, c, t))
  }

  predicate SafeMembers(base: nat, c: Context, target: Byte, ms: seq<Expr>, i: nat, ghost whole: Expr)
    requires WellFormed(c) && i <= |ms| && forall m :: m in ms ==> m < whole
    decreases whole, 2, |ms| - i
  {
    i < |ms| ==>
      assert ms[i] in ms;
      var v := Gen(base, c, ms[i]);
      && Safe(base, c, ms[i])
      && Apart(c, MembersVars(ms, i + 1), Overwrites(base, c, ms[i]))
      && target !in Overwrites(base, c, ms[i])
      && SafeMembers(base + |v.funcs|, v.context, target, ms, i + 1, whole)
  }

  lemma SafeBothParts(base: nat, c: Context, l: Expr, r: Expr, whole: Expr)
    requires WellFormed(c) && l < whole && r < whole && SafeBoth(base, c, l, r, whole)
    ensures var x := Gen(base, c, l);
            var over, over' := Overwrites(base, c, l), Overwrites(base + |x.funcs|, x.context, r);
            && Safe(base, c, l) && Safe(base + |x.funcs|, x.context, r)
            && Apart(c, FreeVars(r), over) && x.reg !in over'
            && OverwritesBoth(base, c, l, r, whole) == over + over'
  {
    hide Gen, Safe, Apart, Overwrites;
  }

  lemma SafeLetParts(base: nat, c: Context, id: Symbol, value: Expr, body: Expr)
    requires WellFormed(c) && SafeLet(base, c, id, value, body)
    ensures var x := Gen(base, c, value);
            && Safe(base, c, value) && Safe(base + |x.funcs|, Push(x.context, id, x.reg), body)
            && Apart(c, FreeVars(body) - {id}, Overwrites(base, c, value))
  {
    hide Gen, Safe, Apart, Overwrites;
  }

  lemma SafeIfParts(base: nat, c: Context, t: Expr, a: Expr, b: Expr)
    requires WellFormed(c) && SafeIf(base, c, t, a, b)
    ensures var x := Gen(base, c, t);
            var d := Branches(x.context);
            var y := Gen(base + |x.funcs|, d, a);
            && Safe(base, c, t) && Safe(base + |x.funcs|, d, a)
            && Safe(base + |x.funcs| + |y.funcs|, y.context, b)
            && Apart(c, FreeVars(a) + FreeVars(b), Overwrites(base, c, t))
  {
    hide Gen, Safe, Apart, Overwrites;
  }

  lemma OverwritesIfParts(base: nat, c: Context, t: Expr, a: Expr, b: Expr)
    requires WellFormed(c)
    ensures var x := Gen(base, c, t);
            var d := Branches(x.context);
            var y := Gen(base + |x.funcs|, d, a);
            var z := Gen(base + |x.funcs| + |y.funcs|, y.context, b);
            var all := OverwritesIf(base, c, t, a, b);
            && Overwrites(base, c, t) <= all && Overwrites(base + |x.funcs|, d, a) <= all
            && Overwrites(base + |x.funcs| + |y.funcs|, y.context, b) <= all
            && (c.version.AsWritten? && z.reg != y.reg ==> y.reg in all)
  {
    hide Gen, Overwrites;
  }

  // ----- Lookups -----

  lemma {:induction false} FindFromPrefix(a: seq<Binding>, b: seq<Binding>, i: int, id: Symbol)
    requires i < |a| && i < |b| && forall j :: 0 <= j <= i ==> a[j] == b[j]
    ensures FindFrom(a, i, id) == FindFrom(b, i, id)
    decreases i + 1
  {
    if i >= 0 { FindFromPrefix(a, b, i - 1, id); }
  }

  /** Compiling changes no lookup of a binding in scope. */
  lemma FindGrows(c: Context, d: Context, id: Symbol)
    requires WellFormed(c) && Grows(c, d)
    ensures Find(d, id) == Find(c, id)
  {
    forall j | 0 <= j <= c.top - 1 ensures c.bindings[j] == d.bindings[j] {
      assert c.bindings[..c.top][j] == d.bindings[..c.top][j];
    }
    FindFromPrefix(c.bindings, d.bindings, c.top - 1, id);
  }

  /** The binding pushed last hides the ones below it, and only those of its own symbol. */
  lemma FindPush(c: Context, id: Symbol, reg: Byte, s: Symbol)
    requires WellFormed(c)
    ensures Find(Push(c, id, reg), s) == if s == id then Some(reg) else Find(c, s)
  {
    FindFromPrefix(c.bindings, Push(c, id, reg).bindings, c.top - 1, s);
  }

  lemma FindBody(v: Version, self: Symbol, param: Symbol, s: Symbol)
    ensures Find(BodyContext(v, self, param), s) ==
            if s == param then Some(1 as Byte)
            else if s == self && self != INVALID_SYMBOL then Some(0 as Byte) else None
  {
  }
}
