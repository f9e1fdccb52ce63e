/** Conditions on the source text alone under which the compiler is correct: as it is meant, that it
    supports the program; as it is written, also that names and branches are plain. */
module PlainPrograms {
  import Semantics
  import opened Wrappers
  import opened Syntax
  import opened Bytecode
  import M = Machine
  import opened Codegen
  import opened Safety
  import opened ClosureConversion
  import opened Representation
  import opened Preservation

  /** The names that `let`s bind in the function that evaluates `e`. */
  function LetNames(e: Expr): set<Symbol> {
    match e
    case Apply(f, a) => LetNames(f) + LetNames(a)
    case Let(id, value, body) => {id} + LetNames(value) + LetNames(body)
    case LetRec(id, _, body) => {id} + LetNames(body)
    case If(t, a, b) => LetNames(t) + LetNames(a) + LetNames(b)
    case Binary(_, l, r) => LetNames(l) + LetNames(r)
    case Unary(_, a) => LetNames(a)
    case Tuple(first, _, _) => LetNames(first)
    case _ => {}
  }

  /** The value of `e` is that of a variable, found in the variable's own register. */
  predicate EndsInVariable(e: Expr) {
    match e
    case Identifier(_) => true
    case Let(_, _, body) => EndsInVariable(body)
    case LetRec(_, _, body) => EndsInVariable(body)
    case If(_, a, _) => EndsInVariable(a)
    case _ => false
  }

  function Names(e: Expr): set<Symbol> {
    FreeVars(e) + LetNames(e)
  }

  /** No name that a `let` binds is used or bound again, after that `let`, in the same function; no
      `if` whose then-branch ends in a variable; and the members of a tuple are all alike and bind
      nothing. */
  predicate Tame(e: Expr) {
    match e
    case Lambda(_, body) => Tame(body)
    case Apply(f, a) => Tame(f) && Tame(a) && LetNames(f) !! Names(a)
    case Binary(_, l, r) => Tame(l) && Tame(r) && LetNames(l) !! Names(r)
    case Unary(_, a) => Tame(a)
    case Let(_, value, body) => Tame(value) && Tame(body) && LetNames(value) !! Names(body)
    case LetRec(_, value, body) => Tame(value) && Tame(body)
    case If(t, a, b) =>
      && Tame(t) && Tame(a) && Tame(b) && !EndsInVariable(a)
      && LetNames(t) !! Names(a) && LetNames(t) !! Names(b) && LetNames(a) !! Names(b)
    case Tuple(first, _, n) => Compiled(AsWritten, e) == MembersOf(e, n) && Tame(first) && LetNames(first) == {}
    case _ => true
  }

  /** What each version of the compiler needs to be right. */
  predicate Plain(v: Version, e: Expr) {
    Supported(e) && (v.AsWritten? ==> Tame(e))
  }

  /** Tuples whose members are all alike. */
  lemma TameMembers(e: Expr, m: Expr)
    requires e.Tuple? && Tame(e) && m in MembersOf(e, e.length)
    ensures m == e.first
  {
    assert m in Compiled(AsWritten, e);
  }

  // ----- Popped bindings -----

  /** No binding that was popped is for a symbol of `vars`. */
  ghost predicate NoStale(c: Context, vars: set<Symbol>)
    requires WellFormed(c)
  {
    forall i :: c.top <= i < |c.bindings| ==> c.bindings[i].symbol !in vars
  }

  lemma NoStaleFresh(c: Context, vars: set<Symbol>, id: Symbol)
    requires WellFormed(c) && NoStale(c, vars) && id in vars
    ensures Fresh(c, id)
  {
  }

  lemma NoStaleScope(c: Context, id: Symbol, reg: Byte, d: Context, vars: set<Symbol>)
    requires WellFormed(c) && Grows(Push(c, id, reg), d)
    ensures NoStale(c, vars) ==> NoStale(Push(c, id, reg), vars)
    ensures NoStale(d, vars) && id !in vars ==> NoStale(Pop(d), vars)
  {
    var p := Push(c, id, reg);
    assert p.bindings[..p.top][c.top] == d.bindings[..p.top][c.top];
  }

  /** Compiling `e` leaves behind popped bindings of its own `let`s only. */
  lemma {:induction false} StaysFresh(base: nat, c: Context, e: Expr, vars: set<Symbol>)
    requires WellFormed(c) && c.version.AsWritten? && NoStale(c, vars) && LetNames(e) !! vars
    ensures NoStale(Gen(base, c, e).context, vars)
    decreases e, 2
  {
    hide NoStale, Encode, FindFrom, EmitMembers, EmitCaptures;
    match e
    case Apply(f, a) => StaysFreshBoth(base, c, f, a, vars, e);
      Unstale(Gen(base + |Gen(base, c, f).funcs|, Gen(base, c, f).context, a).context,
              EmitApply(base, c, f, a).context, vars);
    case Binary(op, l, r) => StaysFreshBoth(base, c, l, r, vars, e);
      Unstale(Gen(base + |Gen(base, c, l).funcs|, Gen(base, c, l).context, r).context,
              EmitBinary(base, c, op, l, r).context, vars);
    case Let(id, value, body) => StaysFreshLet(base, c, id, value, body, vars);
    case LetRec(id, value, body) => StaysFreshLetRec(base, c, id, value, body, vars);
    case If(t, a, b) =>
      var x := Gen(base, c, t);
      var d := Branches(x.context);
      var y := Gen(base + |x.funcs|, d, a);
      StaysFresh(base, c, t, vars);
      Unstale(x.context, d, vars);
      StaysFresh(base + |x.funcs|, d, a, vars);
      StaysFresh(base + |x.funcs| + |y.funcs|, y.context, b, vars);
    case Unary(op, a) =>
      StaysFresh(base, c, a, vars);
      Unstale(Gen(base, c, a).context, EmitUnary(base, c, op, a).context, vars);
    case Tuple(first, _, n) =>
      Unstale(c, Allocate(Allocate(c)), vars);
      StaysFreshMembers(base, Allocate(Allocate(c)), NewRegister(Allocate(c)), Compiled(AsWritten, e), 0, e, vars);
    case _ => Unstale(c, Gen(base, c, e).context, vars);
  }

  lemma {:induction false} StaysFreshLet(base: nat, c: Context, id: Symbol, value: Expr, body: Expr, vars: set<Symbol>)
    requires WellFormed(c) && c.version.AsWritten? && NoStale(c, vars) && LetNames(value) !! vars &&
             LetNames(body) !! vars && id !in vars
    ensures NoStale(EmitLet(base, c, id, value, body).context, vars)
    decreases Let(id, value, body), 0
  {
    hide NoStale, Gen, LetNames;
    var x := Gen(base, c, value);
    var d := Push(x.context, id, x.reg);
    StaysFresh(base, c, value, vars);
    NoStaleScope(x.context, id, x.reg, Gen(base + |x.funcs|, d, body).context, vars);
    StaysFresh(base + |x.funcs|, d, body, vars);
  }

  lemma {:induction false} StaysFreshLetRec(base: nat, c: Context, id: Symbol, value: Expr, body: Expr,
                                            vars: set<Symbol>)
    requires WellFormed(c) && c.version.AsWritten? && NoStale(c, vars) && LetNames(body) !! vars && id !in vars
    ensures NoStale(EmitLetRec(base, c, id, value, body).context, vars)
    decreases LetRec(id, value, body), 0
  {
    hide NoStale, Gen, LetNames, EmitLambda;
    var target := NewRegister(c);
    var d := Push(Allocate(c), id, target);
    Unstale(c, Allocate(c), vars);
    if value.Lambda? {
      var x := EmitLambda(base, d, id, value.param, value.body, target);
      var y := Gen(base + |x.funcs|, x.context, body);
      GrowsTrans(d, x.context, y.context);
      NoStaleScope(Allocate(c), id, target, y.context, vars);
      Unstale(d, x.context, vars);
      StaysFresh(base + |x.funcs|, x.context, body, vars);
    }
  }

  lemma Unstale(c: Context, d: Context, vars: set<Symbol>)
    requires WellFormed(c) && NoStale(c, vars) && d.bindings == c.bindings && d.top == c.top
    ensures NoStale(d, vars)
  {
  }

  lemma {:induction false} StaysFreshBoth(base: nat, c: Context, l: Expr, r: Expr, vars: set<Symbol>, whole: Expr)
    requires WellFormed(c) && c.version.AsWritten? && NoStale(c, vars) && LetNames(l) !! vars &&
             LetNames(r) !! vars && l < whole && r < whole
    ensures var x := Gen(base, c, l); NoStale(Gen(base + |x.funcs|, x.context, r).context, vars)
    decreases whole, 0
  {
    hide NoStale, Gen, LetNames;
    StaysFresh(base, c, l, vars);
    StaysFresh(base + |Gen(base, c, l).funcs|, Gen(base, c, l).context, r, vars);
  }

  lemma {:induction false} StaysFreshMembers(base: nat, c: Context, target: Byte, ms: seq<Expr>, i: nat, whole: Expr,
                                             vars: set<Symbol>)
    requires WellFormed(c) && c.version.AsWritten? && i <= |ms| && NoStale(c, vars)
    requires forall m :: m in ms ==> m < whole && LetNames(m) !! vars
    ensures NoStale(EmitMembers(base, c, target, ms, i, whole).context, vars)
    decreases whole, 0, |ms| - i
  {
    hide NoStale, Gen, LetNames;
    if i < |ms| {
      assert ms[i] in ms;
      var v := Gen(base, c, ms[i]);
      StaysFresh(base, c, ms[i], vars);
      StaysFreshMembers(base + |v.funcs|, v.context, target, ms, i + 1, whole, vars);
    }
  }

  // ----- Registers -----

  /** Every variable of `vars` lives in a register that has been taken. */
  ghost predicate Housed(c: Context, vars: set<Symbol>)
    requires WellFormed(c)
  {
    forall s :: s in vars ==> Home(c, s) < c.registers
  }

  /** Registers from `n` on. */
  ghost predicate From(n: nat, regs: set<Byte>) {
    forall r: Byte :: r in regs ==> r >= n
  }

  /** The registers of `r` and of the functions compiled with it can be named by a byte. */
  predicate Named(r: Emit) {
    r.context.registers <= 256 && forall i :: 0 <= i < |r.funcs| ==> r.funcs[i].registerCount <= 256
  }

  lemma HousedApart(c: Context, vars: set<Symbol>, regs: set<Byte>)
    requires WellFormed(c) && Housed(c, vars) && From(c.registers, regs)
    ensures Apart(c, vars, regs)
  {
  }

  lemma HousedGrows(c: Context, d: Context, vars: set<Symbol>)
    requires WellFormed(c) && Grows(c, d) && Housed(c, vars)
    ensures Housed(d, vars)
  {
    forall s | s in vars ensures Home(d, s) < d.registers { FindGrows(c, d, s); }
  }

  lemma HousedPush(c: Context, id: Symbol, reg: Byte, vars: set<Symbol>)
    requires WellFormed(c) && Housed(c, vars - {id}) && reg < c.registers
    ensures Housed(Push(c, id, reg), vars)
  {
    forall s | s in vars ensures Home(Push(c, id, reg), s) < c.registers {
      FindPush(c, id, reg, s);
      assert s != id ==> s in vars - {id};
    }
  }

  lemma HousedBody(v: Version, self: Symbol, param: Symbol, vars: set<Symbol>)
    ensures Housed(BodyContext(v, self, param), vars)
  {
    forall s ensures Home(BodyContext(v, self, param), s) < 2 { FindBody(v, self, param, s); }
  }

  /** A context ready for an expression with these free variables and names: nothing popped is
      among its names, if that matters, and its variables all live in registers in use. */
  ghost predicate Tidy(c: Context, vars: set<Symbol>, names: set<Symbol>) {
    WellFormed(c) && Scoped(c) && (c.version.AsWritten? ==> NoStale(c, names)) && Housed(c, vars)
  }

  lemma TidyFewer(c: Context, vars: set<Symbol>, names: set<Symbol>, fewer: set<Symbol>, fewerNames: set<Symbol>)
    requires Tidy(c, vars, names) && fewer <= vars && fewerNames <= names
    ensures Tidy(c, fewer, fewerNames)
  {
  }

  /** Compiling an expression keeps a context tidy for what does not use its `let`s. */
  lemma TidyAfter(base: nat, c: Context, e: Expr, vars: set<Symbol>, names: set<Symbol>)
    requires Tidy(c, vars, names) && (c.version.AsWritten? ==> LetNames(e) !! names)
    ensures Tidy(Gen(base, c, e).context, vars, names)
  {
    hide Gen, NoStale, Housed, Scoped, LetNames;
    GrowsScoped(c, Gen(base, c, e).context);
    if c.version.AsWritten? { StaysFresh(base, c, e, names); }
    HousedGrows(c, Gen(base, c, e).context, vars);
  }

  lemma TidyRegisters(c: Context, d: Context, vars: set<Symbol>, names: set<Symbol>)
    requires Tidy(c, vars, names) && Grows(c, d) && d.bindings == c.bindings
    ensures Tidy(d, vars, names)
  {
    hide NoStale, Housed, Scoped;
    GrowsScoped(c, d);
    HousedGrows(c, d, vars);
    if c.version.AsWritten? { Unstale(c, d, names); }
  }

  lemma TidyPush(c: Context, id: Symbol, reg: Byte, vars: set<Symbol>, names: set<Symbol>)
    requires Tidy(c, vars - {id}, names) && reg < c.registers
    ensures Tidy(Push(c, id, reg), vars, names)
  {
    hide Housed;
    HousedPush(c, id, reg, vars);
  }

  /** What holds of the code `r` of a plain expression that overwrites `over`: no register in use
      is among them, there are no errors, and the value is in a new register unless the expression
      ends in a variable. */
  ghost predicate Good(c: Context, over: set<Byte>, r: Emit, ends: bool) {
    From(c.registers, over) && r.errors == 0 && (!ends ==> r.reg >= c.registers)
  }

  lemma NamedParts(x: Emit, y: Emit, z: Emit)
    requires Named(z) && z.funcs == x.funcs + y.funcs
    requires x.context.registers <= y.context.registers <= z.context.registers
    ensures Named(x) && Named(y)
  {
    forall i | 0 <= i < |x.funcs| ensures x.funcs[i].registerCount <= 256 { assert z.funcs[i] == x.funcs[i]; }
    forall i | 0 <= i < |y.funcs| ensures y.funcs[i].registerCount <= 256 {
      assert z.funcs[|x.funcs| + i] == y.funcs[i];
    }
  }

  lemma FromTrans(n: nat, m: nat, a: set<Byte>, b: set<Byte>)
    requires From(n, a) && n <= m && From(m, b)
    ensures From(n, a + b)
  {
  }

  /** Plain expressions are safe, and their code never overwrites a register in use. */
  lemma {:induction false} PlainIsGood(base: nat, c: Context, e: Expr)
    requires WellFormed(c) && Tidy(c, FreeVars(e), Names(e)) && Plain(c.version, e) && Named(Gen(base, c, e))
    ensures Safe(base, c, e) && Good(c, Overwrites(base, c, e), Gen(base, c, e), EndsInVariable(e))
    decreases e, 2
  {
    hide Tidy, Encode, FindFrom, EmitMembers, EmitCaptures, EmitLambda, SafeLambda, Named, SafeBoth, SafeLet,
         SafeLetRec,
         SafeIf, OverwritesBoth, OverwritesLet, OverwritesLetRec, OverwritesIf, EmitLet, EmitLetRec, EmitIf, EmitTuple,
         EmitIdentifier, Compiled, From, Good, SafeMembers, OverwritesMembers;
    match e
    case Identifier(id) => GoodIdentifier(base, c, id);
    case Lambda(param, body) => GoodPlainLambda(base, c, param, body);
    case Apply(f, a) => GoodApply(base, c, f, a);
    case Binary(op, l, r) => GoodBinary(base, c, op, l, r);
    case Let(id, value, body) => GoodLet(base, c, id, value, body);
    case LetRec(id, value, body) => GoodLetRec(base, c, id, value, body);
    case If(t, a, b) => GoodIf(base, c, t, a, b);
    case Unary(op, a) => GoodUnary(base, c, op, a);
    case Tuple(_, _, _) => GoodTuple(base, c, e);
    case _ => GoodLiteral(base, c, e);
  }

  lemma GoodLiteral(base: nat, c: Context, e: Expr)
    requires WellFormed(c) && (e.Literal? || e.True? || e.False?) && Named(Gen(base, c, e))
    ensures Safe(base, c, e) && Good(c, {}, Gen(base, c, e), false)
  {
  }

  lemma GoodIdentifier(base: nat, c: Context, id: Symbol)
    requires WellFormed(c) && Tidy(c, {id}, Names(Identifier(id)))
    ensures Fresh(c, id) && Good(c, {}, EmitIdentifier(c, id), true)
  {
    if c.version.AsWritten? { NoStaleFresh(c, Names(Identifier(id)), id); }
  }

  lemma {:induction false} GoodBoth(base: nat, c: Context, l: Expr, r: Expr, whole: Expr)
    requires WellFormed(c) && l < whole && r < whole && Tidy(c, FreeVars(l) + FreeVars(r), Names(l) + Names(r))
    requires Plain(c.version, l) && Plain(c.version, r) && (c.version.AsWritten? ==> LetNames(l) !! Names(r))
    requires var x := Gen(base, c, l); Named(x) && Named(Gen(base + |x.funcs|, x.context, r))
    ensures SafeBoth(base, c, l, r, whole) && From(c.registers, OverwritesBoth(base, c, l, r, whole))
    ensures var x := Gen(base, c, l); x.errors == 0 && Gen(base + |x.funcs|, x.context, r).errors == 0
    decreases whole, 0
  {
    hide Gen, Safe, Overwrites, Plain, Named, LetNames, Names, Apart, Housed, NoStale, Scoped, FreeVars, Tidy;
    var x := Gen(base, c, l);
    TidyFewer(c, FreeVars(l) + FreeVars(r), Names(l) + Names(r), FreeVars(l), Names(l));
    TidyFewer(c, FreeVars(l) + FreeVars(r), Names(l) + Names(r), FreeVars(r), Names(r));
    TidyAfter(base, c, l, FreeVars(r), Names(r));
    PlainIsGood(base, c, l);
    PlainIsGood(base + |x.funcs|, x.context, r);
    ResultTaken(base, c, l);
    HousedApart(c, FreeVars(r), Overwrites(base, c, l));
    FromTrans(c.registers, x.context.registers, Overwrites(base, c, l), Overwrites(base + |x.funcs|, x.context, r));
  }

  lemma {:induction false} GoodApply(base: nat, c: Context, f: Expr, a: Expr)
    requires var e := Apply(f, a);
             WellFormed(c) && Tidy(c, FreeVars(e), Names(e)) && Plain(c.version, e) && Named(EmitApply(base, c, f, a))
    ensures SafeBoth(base, c, f, a, Apply(f, a))
    ensures Good(c, OverwritesBoth(base, c, f, a, Apply(f, a)), EmitApply(base, c, f, a), false)
    decreases Apply(f, a), 1
  {
    hide Tidy, SafeBoth, OverwritesBoth, From, Encode, Gen, Safe, Overwrites;
    var x := Gen(base, c, f);
    NamedParts(x, Gen(base + |x.funcs|, x.context, a), EmitApply(base, c, f, a));
    assert Names(Apply(f, a)) == Names(f) + Names(a);
    GoodBoth(base, c, f, a, Apply(f, a));
  }

  lemma {:induction false} GoodBinary(base: nat, c: Context, op: BinaryOp, l: Expr, r: Expr)
    requires var e := Binary(op, l, r);
             WellFormed(c) && Tidy(c, FreeVars(e), Names(e)) && Plain(c.version, e) &&
             Named(EmitBinary(base, c, op, l, r))
    ensures SafeBoth(base, c, l, r, Binary(op, l, r))
    ensures Good(c, OverwritesBoth(base, c, l, r, Binary(op, l, r)), EmitBinary(base, c, op, l, r), false)
    decreases Binary(op, l, r), 1
  {
    hide Tidy, SafeBoth, OverwritesBoth, From, Encode, Gen, Safe, Overwrites, Named;
    var x := Gen(base, c, l);
    NamedParts(x, Gen(base + |x.funcs|, x.context, r), EmitBinary(base, c, op, l, r));
    assert Names(Binary(op, l, r)) == Names(l) + Names(r);
    GoodBoth(base, c, l, r, Binary(op, l, r));
    BinaryRegister(base, c, op, l, r);
  }

  lemma BinaryRegister(base: nat, c: Context, op: BinaryOp, l: Expr, r: Expr)
    requires WellFormed(c) && Named(EmitBinary(base, c, op, l, r))
    ensures EmitBinary(base, c, op, l, r).reg >= c.registers
  {
    hide Gen, Encode;
  }

  lemma {:induction false} GoodUnary(base: nat, c: Context, op: UnaryOp, a: Expr)
    requires var e := Unary(op, a);
             WellFormed(c) && Tidy(c, FreeVars(e), Names(e)) && Plain(c.version, e) && Named(EmitUnary(base, c, op, a))
    ensures Safe(base, c, a) && Good(c, Overwrites(base, c, a), EmitUnary(base, c, op, a), false)
    decreases Unary(op, a), 1
  {
    hide Tidy, SafeBoth, OverwritesBoth, From, Encode, Gen, Safe, Overwrites;
    assert Names(Unary(op, a)) == Names(a);
    PlainIsGood(base, c, a);
  }

  lemma {:induction false} GoodLet(base: nat, c: Context, id: Symbol, value: Expr, body: Expr)
    requires var e := Let(id, value, body);
             WellFormed(c) && Tidy(c, FreeVars(e), Names(e)) && Plain(c.version, e) &&
             Named(EmitLet(base, c, id, value, body))
    ensures SafeLet(base, c, id, value, body)
    ensures Good(c, OverwritesLet(base, c, id, value, body), EmitLet(base, c, id, value, body), EndsInVariable(body))
    decreases Let(id, value, body), 1
  {
    hide From, Tidy, Apart, Named, Gen, Safe, Overwrites;
    var e := Let(id, value, body);
    var x := Gen(base, c, value);
    var d := Push(x.context, id, x.reg);
    var others := FreeVars(body) - {id};
    NamedParts(x, Gen(base + |x.funcs|, d, body), EmitLet(base, c, id, value, body));
    assert Names(e) == Names(value) + {id} + Names(body);
    TidyFewer(c, FreeVars(e), Names(e), FreeVars(value), Names(value));
    TidyFewer(c, FreeVars(e), Names(e), others, Names(body));
    PlainIsGood(base, c, value);
    TidyBody(base, c, id, value, body);
    PlainIsGood(base + |x.funcs|, d, body);
    FromTrans(c.registers, d.registers, Overwrites(base, c, value), Overwrites(base + |x.funcs|, d, body));
  }

  lemma {:induction false} TidyBody(base: nat, c: Context, id: Symbol, value: Expr, body: Expr)
    requires WellFormed(c) && Tidy(c, FreeVars(body) - {id}, Names(body)) &&
             (c.version.AsWritten? ==> LetNames(value) !! Names(body))
    requires Safe(base, c, value) && From(c.registers, Overwrites(base, c, value))
    ensures var x := Gen(base, c, value); Tidy(Push(x.context, id, x.reg), FreeVars(body), Names(body))
    ensures Apart(c, FreeVars(body) - {id}, Overwrites(base, c, value))
  {
    hide Gen, LetNames, Names, Safe, Overwrites, From;
    var x := Gen(base, c, value);
    ResultTaken(base, c, value);
    TidyAfter(base, c, value, FreeVars(body) - {id}, Names(body));
    TidyPush(x.context, id, x.reg, FreeVars(body), Names(body));
    HousedApart(c, FreeVars(body) - {id}, Overwrites(base, c, value));
  }

  /** The function compiled for a lambda is safe, and so is capturing its variables. */
  lemma {:induction false} GoodLambda(base: nat, c: Context, self: Symbol, param: Symbol, body: Expr, target: Byte,
                                      names: set<Symbol>)
    requires WellFormed(c) && (c.version.AsWritten? ==> NoStale(c, names)) &&
             FunctionVars(self, param, body) <= names && Plain(c.version, body)
    requires Named(EmitLambda(base, c, self, param, body, target))
    ensures SafeLambda(base, c, self, param, body) && EmitLambda(base, c, self, param, body, target).errors == 0
    decreases body, 3
  {
    hide Safe, Sees, Gen, Plain, Overwrites, EmitCaptures, Find, FindWritten;
    var d := BodyContext(c.version, self, param);
    var child := Gen(base + 1, d, body);
    var z := EmitLambda(base, c, self, param, body, target);
    assert z.funcs[0] == Finish(child);
    forall i | 0 <= i < |child.funcs| ensures child.funcs[i].registerCount <= 256 {
      assert z.funcs[i + 1] == child.funcs[i];
    }
    HousedBody(c.version, self, param, FreeVars(body));
    assert Tidy(d, FreeVars(body), Names(body));
    PlainIsGood(base + 1, d, body);
    SafeSees(base + 1, d, body);
    ClosureIsFreeVars(base + 1, d, body);
    forall s | s in child.context.closure ensures Fresh(c, s) {
      assert s in Elements(child.context.closure);
      FindBody(c.version, self, param, s);
      if c.version.AsWritten? { NoStaleFresh(c, names, s); } else { MeantFresh(c, s); }
    }
  }

  lemma MeantFresh(c: Context, id: Symbol)
    requires WellFormed(c) && c.version.AsMeant?
    ensures Fresh(c, id)
  {
  }

  lemma {:induction false} GoodPlainLambda(base: nat, c: Context, param: Symbol, body: Expr)
    requires var e := Lambda(param, body);
             WellFormed(c) && Tidy(c, FreeVars(e), Names(e)) && Plain(c.version, e) && Named(Gen(base, c, e))
    ensures Safe(base, c, Lambda(param, body)) && Good(c, {}, Gen(base, c, Lambda(param, body)), false)
    decreases Lambda(param, body), 1
  {
    hide EmitLambda, SafeLambda, Housed, Scoped;
    var e := Lambda(param, body);
    if c.version.AsWritten? { Unstale(c, Allocate(c), Names(e)); }
    assert FunctionVars(INVALID_SYMBOL, param, body) == FreeVars(e);
    GoodLambda(base, Allocate(c), INVALID_SYMBOL, param, body, NewRegister(c), Names(e));
  }

  lemma {:induction false} GoodLetRec(base: nat, c: Context, id: Symbol, value: Expr, body: Expr)
    requires var e := LetRec(id, value, body);
             WellFormed(c) && Tidy(c, FreeVars(e), Names(e)) && Plain(c.version, e) &&
             Named(EmitLetRec(base, c, id, value, body))
    ensures SafeLetRec(base, c, id, value, body)
    ensures Good(c, OverwritesLetRec(base, c, id, value, body), EmitLetRec(base, c, id, value, body),
                 EndsInVariable(body))
    decreases LetRec(id, value, body), 1
  {
    hide From, Tidy, Apart, Named, EmitLambda, SafeLambda, Gen, Safe, Overwrites;
    var e := LetRec(id, value, body);
    var target := NewRegister(c);
    var d := Push(Allocate(c), id, target);
    var x := EmitLambda(base, d, id, value.param, value.body, target);
    var own := FunctionVars(id, value.param, value.body);
    NamedParts(x, Gen(base + |x.funcs|, x.context, body), EmitLetRec(base, c, id, value, body));
    assert Names(e) == own + {id} + Names(body);
    TidyFewer(c, FreeVars(e), Names(e), FreeVars(body) - {id}, Names(e));
    TidyRegisters(c, Allocate(c), FreeVars(body) - {id}, Names(e));
    TidyPush(Allocate(c), id, target, FreeVars(body), Names(e));
    TidyNoStale(d, FreeVars(body), Names(e));
    assert Plain(c.version, value) && value == Lambda(value.param, value.body) && d.version == c.version;
    GoodLambda(base, d, id, value.param, value.body, target, Names(e));
    TidyRegisters(d, x.context, FreeVars(body), Names(e));
    TidyFewer(x.context, FreeVars(body), Names(e), FreeVars(body), Names(body));
    PlainIsGood(base + |x.funcs|, x.context, body);
    FromTrans(c.registers, x.context.registers, {}, Overwrites(base + |x.funcs|, x.context, body));
    assert {} + Overwrites(base + |x.funcs|, x.context, body) == Overwrites(base + |x.funcs|, x.context, body);
  }

  lemma TidyNoStale(c: Context, vars: set<Symbol>, names: set<Symbol>)
    requires Tidy(c, vars, names)
    ensures c.version.AsWritten? ==> NoStale(c, names)
  {
  }

  lemma {:induction false} GoodIf(base: nat, c: Context, t: Expr, a: Expr, b: Expr)
    requires var e := If(t, a, b);
             WellFormed(c) && Tidy(c, FreeVars(e), Names(e)) && Plain(c.version, e) && Named(EmitIf(base, c, t, a, b))
    ensures SafeIf(base, c, t, a, b)
    ensures Good(c, OverwritesIf(base, c, t, a, b), EmitIf(base, c, t, a, b), EndsInVariable(a))
    decreases If(t, a, b), 1
  {
    hide *;
    var e := If(t, a, b);
    var x := Gen(base, c, t);
    var d := Branches(x.context);
    var y := Gen(base + |x.funcs|, d, a);
    var z := Gen(base + |x.funcs| + |y.funcs|, y.context, b);
    IfShape(base, c, t, a, b);
    PlainIf(c.version, t, a, b);
    GrowsVersion(c, x.context);
    GrowsVersion(x.context, d);
    GrowsVersion(d, y.context);
    GrowsVersion(y.context, z.context);
    NamedThree(x, y, z, EmitIf(base, c, t, a, b));
    TidyFewer(c, FreeVars(e), Names(e), FreeVars(t), Names(t));
    TidyFewer(c, FreeVars(e), Names(e), FreeVars(a), Names(a));
    TidyFewer(c, FreeVars(e), Names(e), FreeVars(b), Names(b));
    TidyFewer(c, FreeVars(e), Names(e), FreeVars(a) + FreeVars(b), Names(e));
    TidyAfter(base, c, t, FreeVars(a), Names(a));
    TidyAfter(base, c, t, FreeVars(b), Names(b));
    TidyRegisters(x.context, d, FreeVars(a), Names(a));
    TidyRegisters(x.context, d, FreeVars(b), Names(b));
    TidyAfter(base + |x.funcs|, d, a, FreeVars(b), Names(b));
    PlainIsGood(base, c, t);
    PlainIsGood(base + |x.funcs|, d, a);
    PlainIsGood(base + |x.funcs| + |y.funcs|, y.context, b);
    GoodFrom(c, Overwrites(base, c, t), x, EndsInVariable(t));
    TidyApart(c, FreeVars(a) + FreeVars(b), Names(e), Overwrites(base, c, t));
    GoodIfDone(base, c, t, a, b);
  }

  lemma PlainIf(v: Version, t: Expr, a: Expr, b: Expr)
    requires Plain(v, If(t, a, b))
    ensures Plain(v, t) && Plain(v, a) && Plain(v, b)
    ensures v.AsWritten? ==> !EndsInVariable(a)
    ensures v.AsWritten? ==> LetNames(t) !! Names(a) && LetNames(t) !! Names(b) && LetNames(a) !! Names(b)
    ensures Names(If(t, a, b)) == Names(t) + Names(a) + Names(b)
    ensures FreeVars(If(t, a, b)) == FreeVars(t) + FreeVars(a) + FreeVars(b)
  {
    IfNames(t, a, b);
    hide Names, FreeVars, LetNames, EndsInVariable;
  }

  lemma IfNames(t: Expr, a: Expr, b: Expr)
    ensures Names(If(t, a, b)) == Names(t) + Names(a) + Names(b)
    ensures FreeVars(If(t, a, b)) == FreeVars(t) + FreeVars(a) + FreeVars(b)
  {
  }

  lemma GoodFrom(c: Context, over: set<Byte>, r: Emit, ends: bool)
    requires Good(c, over, r, ends)
    ensures From(c.registers, over)
  {
  }

  lemma GoodIfDone(base: nat, c: Context, t: Expr, a: Expr, b: Expr)
    requires WellFormed(c) && (c.version.AsWritten? ==> !EndsInVariable(a)) && Named(EmitIf(base, c, t, a, b))
    requires var x := Gen(base, c, t);
             var d := Branches(x.context);
             var y := Gen(base + |x.funcs|, d, a);
             var z := Gen(base + |x.funcs| + |y.funcs|, y.context, b);
             && Safe(base, c, t) && Safe(base + |x.funcs|, d, a) && Safe(base + |x.funcs| + |y.funcs|, y.context, b)
             && Apart(c, FreeVars(a) + FreeVars(b), Overwrites(base, c, t))
             && Good(c, Overwrites(base, c, t), x, EndsInVariable(t))
             && Good(d, Overwrites(base + |x.funcs|, d, a), y, EndsInVariable(a))
             && Good(y.context, Overwrites(base + |x.funcs| + |y.funcs|, y.context, b), z, EndsInVariable(b))
    ensures SafeIf(base, c, t, a, b) &&
            Good(c, OverwritesIf(base, c, t, a, b), EmitIf(base, c, t, a, b), EndsInVariable(a))
  {
    hide *;
    var x := Gen(base, c, t);
    var d := Branches(x.context);
    var y := Gen(base + |x.funcs|, d, a);
    var z := Gen(base + |x.funcs| + |y.funcs|, y.context, b);
    var all := EmitIf(base, c, t, a, b);
    IfShape(base, c, t, a, b);
    IsSafeIf(base, c, t, a, b);
    IsOverwritesIf(base, c, t, a, b);
    GrowsVersion(c, x.context);
    GrowsVersion(x.context, d);
    GrowsVersion(d, y.context);
    GrowsVersion(y.context, z.context);
    NamedRegisters(all);
    GoodParts(c, x.context, d, y, z, Overwrites(base, c, t), x, EndsInVariable(t),
              Overwrites(base + |x.funcs|, d, a), EndsInVariable(a),
              Overwrites(base + |x.funcs| + |y.funcs|, y.context, b), EndsInVariable(b),
              OverwritesIf(base, c, t, a, b), all);
  }

  lemma IsSafeIf(base: nat, c: Context, t: Expr, a: Expr, b: Expr)
    requires WellFormed(c)
    requires var x := Gen(base, c, t);
             var d := Branches(x.context);
             var y := Gen(base + |x.funcs|, d, a);
             && Safe(base, c, t) && Safe(base + |x.funcs|, d, a) && Safe(base + |x.funcs| + |y.funcs|, y.context, b)
             && Apart(c, FreeVars(a) + FreeVars(b), Overwrites(base, c, t))
    ensures SafeIf(base, c, t, a, b)
  {
    hide Gen, Safe, Apart, Overwrites;
  }

  lemma IsOverwritesIf(base: nat, c: Context, t: Expr, a: Expr, b: Expr)
    requires WellFormed(c)
    ensures var x := Gen(base, c, t);
            var d := Branches(x.context);
            var y := Gen(base + |x.funcs|, d, a);
            var z := Gen(base + |x.funcs| + |y.funcs|, y.context, b);
            OverwritesIf(base, c, t, a, b) <=
              Overwrites(base, c, t) + Overwrites(base + |x.funcs|, d, a)
              + Overwrites(base + |x.funcs| + |y.funcs|, y.context, b) + (if c.version.AsWritten? then {y.reg} else {})
  {
    hide Gen, Overwrites;
  }

  lemma NamedRegisters(r: Emit)
    requires Named(r)
    ensures r.context.registers <= 256
  {
  }

  lemma GoodParts(c: Context, c': Context, d: Context, y: Emit, z: Emit, over: set<Byte>, x: Emit, ends: bool,
                  over': set<Byte>, ends': bool, over'': set<Byte>, ends'': bool, all: set<Byte>, r: Emit)
    requires Good(c, over, x, ends) && Good(d, over', y, ends') && Good(y.context, over'', z, ends'')
    requires WellFormed(c') && c'.version == c.version && (c.version.AsWritten? ==> !ends')
    requires c.registers <= c'.registers && d == Branches(c') && d.registers <= y.context.registers &&
             y.context.registers <= 256
    requires all <= over + over' + over'' + (if c.version.AsWritten? then {y.reg} else {})
    requires r.errors == x.errors + y.errors + z.errors && r.reg == ResultOf(c', y.reg)
    ensures Good(c, all, r, ends')
  {
  }

  lemma TidyApart(c: Context, vars: set<Symbol>, names: set<Symbol>, regs: set<Byte>)
    requires Tidy(c, vars, names) && From(c.registers, regs)
    ensures Apart(c, vars, regs)
  {
  }

  lemma NamedThree(x: Emit, y: Emit, z: Emit, all: Emit)
    requires Named(all) && all.funcs == x.funcs + y.funcs + z.funcs
    requires x.context.registers <= y.context.registers <= z.context.registers <= all.context.registers
    ensures Named(x) && Named(y) && Named(z)
  {
    var xy := y.(funcs := x.funcs + y.funcs);
    NamedParts(xy, z, all);
    NamedParts(x, y, xy);
  }

  lemma {:induction false} GoodTuple(base: nat, c: Context, e: Expr)
    requires e.Tuple? && WellFormed(c) && Tidy(c, FreeVars(e), Names(e)) && Plain(c.version, e)
    requires Named(EmitTuple(base, c, e))
    ensures Safe(base, c, e) && Good(c, Overwrites(base, c, e), EmitTuple(base, c, e), false)
    decreases e, 1
  {
    hide Tidy, Apart, Named, Encode, EmitMembers, SafeMembers, OverwritesMembers, Names, LetNames;
    var d, ms := Allocate(Allocate(c)), MembersOf(e, e.length);
    Semantics.ChainVars(e, e.length);
    TidyRegisters(c, d, FreeVars(e), Names(e));
    TupleNamed(base, c, e);
    forall m | m in ms && c.version.AsWritten? ensures Tame(m) && LetNames(m) == {} && Names(m) <= Names(e) {
      TameMembers(e, m);
      FirstNames(e);
    }
    GoodMembers(base, d, NewRegister(Allocate(c)), ms, 0, e, Names(e));
  }

  lemma FirstNames(e: Expr)
    requires e.Tuple?
    ensures Names(e.first) <= Names(e)
  {
  }

  lemma TupleNamed(base: nat, c: Context, e: Expr)
    requires WellFormed(c) && e.Tuple? && Named(EmitTuple(base, c, e))
    ensures c.registers + 2 <= 256
    ensures var d := Allocate(Allocate(c));
            var z := EmitMembers(base, d, NewRegister(Allocate(c)), Compiled(c.version, e), 0, e);
            && EmitTuple(base, c, e).reg == c.registers + 1
            && EmitTuple(base, c, e).errors == z.errors && Named(z)
  {
  }

  lemma {:induction false} GoodMembers(base: nat, c: Context, target: Byte, ms: seq<Expr>, i: nat, whole: Expr,
                                       names: set<Symbol>)
    requires WellFormed(c) && i <= |ms| && Tidy(c, MembersVars(ms, i), names)
    requires forall m :: m in ms ==>
               m < whole && Plain(c.version, m) && (c.version.AsWritten? ==> LetNames(m) == {} && Names(m) <= names)
    requires target < c.registers && Named(EmitMembers(base, c, target, ms, i, whole))
    ensures SafeMembers(base, c, target, ms, i, whole) && From(c.registers, OverwritesMembers(base, c, ms, i, whole))
    ensures EmitMembers(base, c, target, ms, i, whole).errors == 0
    decreases whole, 0, |ms| - i
  {
    hide Tidy, Apart, Named, Encode, Gen, Safe, Overwrites, Plain, LetNames, Names;
    if i < |ms| {
      var m := ms[i];
      assert m in ms;
      var v := Gen(base, c, m);
      var rest := EmitMembers(base + |v.funcs|, v.context, target, ms, i + 1, whole);
      NamedParts(v, rest, EmitMembers(base, c, target, ms, i, whole));
      TidyMember(c, MembersVars(ms, i), names, FreeVars(m), Names(m));
      TidyFewer(c, MembersVars(ms, i), names, MembersVars(ms, i + 1), names);
      PlainIsGood(base, c, m);
      TidyApart(c, MembersVars(ms, i + 1), names, Overwrites(base, c, m));
      TidyAfter(base, c, m, MembersVars(ms, i + 1), names);
      GrowsVersion(c, v.context);
      GoodMembers(base + |v.funcs|, v.context, target, ms, i + 1, whole, names);
      FromTrans(c.registers, v.context.registers, Overwrites(base, c, m),
                OverwritesMembers(base + |v.funcs|, v.context, ms, i + 1, whole));
    }
  }

  lemma TidyMember(c: Context, vars: set<Symbol>, names: set<Symbol>, fewer: set<Symbol>, own: set<Symbol>)
    requires Tidy(c, vars, names) && fewer <= vars && (c.version.AsWritten? ==> own <= names)
    ensures Tidy(c, fewer, own)
  {
  }

  /** A closed program that is plain for a version of the compiler and within the size limits is
      compiled by it without error, to a module that computes its value. */
  lemma PlainIsCompilable(v: Version, e: Expr)
    requires FreeVars(e) == {} && Plain(v, e) && Fits(Compile(v, e))
    ensures Compilable(v, e)
  {
    hide Gen, Safe, Plain, Overwrites, LetNames;
    var m := Compile(v, e);
    var body := Gen(1, EmptyContext(v), e);
    forall i | 0 <= i < |body.funcs| ensures body.funcs[i].registerCount <= 256 { assert m[i + 1] == body.funcs[i]; }
    assert m[0].registerCount >= body.context.registers;
    PlainIsGood(1, EmptyContext(v), e);
  }

  /** As the compiler is meant, it is right for every closed program that it supports and that fits
      the bytecode. */
  lemma MeantIsCompilable(e: Expr)
    requires FreeVars(e) == {} && Supported(e) && Fits(Compile(AsMeant, e))
    ensures Compilable(AsMeant, e)
  {
    hide Gen, Safe, Supported;
    PlainIsCompilable(AsMeant, e);
  }
}
