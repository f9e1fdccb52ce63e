/** The meaning of Millie programs: strict, environment-based big-step evaluation.

    `fuel` bounds the depth of nested function calls only. Integers are 64-bit words. Equality
    is defined on two integers or two booleans: on functions and tuples the machine compares
    addresses, to which the language gives no meaning. */
module Semantics {
  import opened Wrappers
  import opened Syntax

  const WORD := 0x1_0000_0000_0000_0000

  datatype Value =
    | IntV(n: U64)
    | BoolV(b: bool)
    | TupleV(members: seq<Value>)
    | ClosureV(self: Symbol, param: Symbol, body: Expr, env: Env)

  datatype Env = Empty | Bind(id: Symbol, value: Value, rest: Env)

  datatype Outcome = Val(v: Value) | Timeout | Stuck

  datatype Outcomes = Vals(vs: seq<Value>) | TimeoutS | StuckS

  function Lookup(env: Env, id: Symbol): Option<Value> {
    match env
    case Empty => None
    case Bind(x, v, rest) => if x == id then Some(v) else Lookup(rest, id)
  }

  /** The environment of a call: a recursive function also sees itself, unless its parameter
      hides it. */
  function CallEnv(c: Value, arg: Value): Env
    requires c.ClosureV?
  {
    Bind(c.param, arg, if c.self != INVALID_SYMBOL then Bind(c.self, c, c.env) else c.env)
  }

  function BinaryValue(op: BinaryOp, a: Value, b: Value): Outcome {
    match op
    case Plus => if a.IntV? && b.IntV? then Val(IntV((a.n + b.n) % WORD)) else Stuck
    case Minus => if a.IntV? && b.IntV? then Val(IntV((a.n - b.n) % WORD)) else Stuck
    case Star => if a.IntV? && b.IntV? then Val(IntV((a.n * b.n) % WORD)) else Stuck
    case Equals =>
      if a.IntV? && b.IntV? then Val(BoolV(a.n == b.n))
      else if a.BoolV? && b.BoolV? then Val(BoolV(a.b == b.b))
      else Stuck
    case Slash => Stuck
  }

  function UnaryValue(op: UnaryOp, a: Value): Outcome {
    if op == UnaryMinus && a.IntV? then Val(IntV((WORD - a.n) % WORD)) else Stuck
  }

  function Eval(e: Expr, env: Env, fuel: nat): Outcome
    decreases fuel, e
  {
    match e
    case Literal(n) => Val(IntV(n))
    case True => Val(BoolV(true))
    case False => Val(BoolV(false))
    case Identifier(id) =>
      (match Lookup(env, id) case Some(v) => Val(v) case None => Stuck)
    case Lambda(param, body) => Val(ClosureV(INVALID_SYMBOL, param, body, env))
    case Apply(f, a) =>
      var fv := Eval(f, env, fuel);
      if !fv.Val? then fv else
      var av := Eval(a, env, fuel);
      if !av.Val? then av else
      if !fv.v.ClosureV? then Stuck else
      if fuel == 0 then Timeout else Eval(fv.v.body, CallEnv(fv.v, av.v), fuel - 1)
    case Let(id, value, body) =>
      var v := Eval(value, env, fuel);
      if !v.Val? then v else Eval(body, Bind(id, v.v, env), fuel)
    case LetRec(id, value, body) =>
      if !value.Lambda? then Stuck
      else Eval(body, Bind(id, ClosureV(id, value.param, value.body, env), env), fuel)
    case If(t, a, b) =>
      var tv := Eval(t, env, fuel);
      if !tv.Val? then tv else
      if !tv.v.BoolV? then Stuck else
      if tv.v.b then Eval(a, env, fuel) else Eval(b, env, fuel)
    case Binary(op, l, r) =>
      var lv := Eval(l, env, fuel);
      if !lv.Val? then lv else
      var rv := Eval(r, env, fuel);
      if !rv.Val? then rv else BinaryValue(op, lv.v, rv.v)
    case Unary(op, a) =>
      var av := Eval(a, env, fuel);
      if !av.Val? then av else UnaryValue(op, av.v)
    case Tuple(_, _, _) =>
      (match EvalMembers(e, env, fuel)
       case Vals(vs) => Val(TupleV(vs))
       case TimeoutS => Timeout
       case StuckS => Stuck)
    case _ => Stuck
  }

  /** The members of a tuple chain, evaluated from left to right. */
  function EvalMembers(e: Expr, env: Env, fuel: nat): Outcomes
    decreases fuel, e, 0
  {
    match e
    case Tuple(first, rest, _) =>
      (match Eval(first, env, fuel)
       case Timeout => TimeoutS
       case Stuck => StuckS
       case Val(v) =>
         match EvalMembers(rest, env, fuel)
         case Vals(vs) => Vals([v] + vs)
         case other => other)
    case TupleFinal(first) =>
      (match Eval(first, env, fuel)
       case Timeout => TimeoutS
       case Stuck => StuckS
       case Val(v) => Vals([v]))
    case _ => StuckS
  }

  /** More fuel never changes the value of an evaluation that succeeds. */
  lemma {:induction false} EvalMonotonic(e: Expr, env: Env, fuel: nat, more: nat)
    requires fuel <= more && !Eval(e, env, fuel).Timeout?
    ensures Eval(e, env, more) == Eval(e, env, fuel)
    decreases fuel, e
  {
    match e
    case Apply(f, a) =>
      EvalMonotonic(f, env, fuel, more);
      var fv := Eval(f, env, fuel);
      if fv.Val? {
        EvalMonotonic(a, env, fuel, more);
        var av := Eval(a, env, fuel);
        if av.Val? && fv.v.ClosureV? {
          EvalMonotonic(fv.v.body, CallEnv(fv.v, av.v), fuel - 1, more - 1);
        }
      }
    case Let(id, value, body) =>
      EvalMonotonic(value, env, fuel, more);
      var v := Eval(value, env, fuel);
      if v.Val? { EvalMonotonic(body, Bind(id, v.v, env), fuel, more); }
    case LetRec(id, value, body) =>
      if value.Lambda? {
        EvalMonotonic(body, Bind(id, ClosureV(id, value.param, value.body, env), env), fuel, more);
      }
    case If(t, a, b) =>
      EvalMonotonic(t, env, fuel, more);
      var tv := Eval(t, env, fuel);
      if tv.Val? && tv.v.BoolV? { EvalMonotonic(if tv.v.b then a else b, env, fuel, more); }
    case Binary(_, l, r) =>
      EvalMonotonic(l, env, fuel, more);
      if Eval(l, env, fuel).Val? { EvalMonotonic(r, env, fuel, more); }
    case Unary(_, a) => EvalMonotonic(a, env, fuel, more);
    case Tuple(_, _, _) => MembersMonotonic(e, env, fuel, more);
    case _ =>
  }

  lemma {:induction false} MembersMonotonic(e: Expr, env: Env, fuel: nat, more: nat)
    requires fuel <= more && !EvalMembers(e, env, fuel).TimeoutS?
    ensures EvalMembers(e, env, more) == EvalMembers(e, env, fuel)
    decreases fuel, e, 0
  {
    match e
    case Tuple(first, rest, _) =>
      EvalMonotonic(first, env, fuel, more);
      if Eval(first, env, fuel).Val? { MembersMonotonic(rest, env, fuel, more); }
    case TupleFinal(first) => EvalMonotonic(first, env, fuel, more);
    case _ =>
  }

  /** The value of a tuple is made of those of its members; if one of them does not end, it is the
      first without a value. */
  lemma {:induction false} MembersEvaluate(e: Expr, n: nat, env: Env, fuel: nat)
    requires Chain(e, n)
    ensures n > 0 && |MembersOf(e, n)| == n
    ensures var ms, o := MembersOf(e, n), EvalMembers(e, env, fuel);
            && (o.Vals? ==> |o.vs| == n && forall i :: 0 <= i < n ==> Eval(ms[i], env, fuel) == Val(o.vs[i]))
            && (o.TimeoutS? ==> exists i :: 0 <= i < n && FirstTimeout(ms, i, env, fuel))
  {
    if e.Tuple? {
      MembersEvaluate(e.rest, n - 1, env, fuel);
      var ms, rest := MembersOf(e, n), MembersOf(e.rest, n - 1);
      assert ms == [e.first] + rest;
      if EvalMembers(e, env, fuel).TimeoutS? {
        if Eval(e.first, env, fuel).Timeout? {
          assert FirstTimeout(ms, 0, env, fuel);
        } else {
          var i :| 0 <= i < n - 1 && FirstTimeout(rest, i, env, fuel);
          assert FirstTimeout(ms, i + 1, env, fuel);
        }
      }
    } else {
      assert MembersOf(e, n) == [e.first];
      if EvalMembers(e, env, fuel).TimeoutS? { assert FirstTimeout(MembersOf(e, n), 0, env, fuel); }
    }
  }

  predicate FirstTimeout(ms: seq<Expr>, i: nat, env: Env, fuel: nat) {
    i < |ms| && Eval(ms[i], env, fuel).Timeout? && forall j :: 0 <= j < i ==> Eval(ms[j], env, fuel).Val?
  }

  lemma {:induction false} ChainVars(e: Expr, n: nat)
    requires Chain(e, n)
    ensures FreeVars(e) == MembersVars(MembersOf(e, n), 0)
  {
    var ms := MembersOf(e, n);
    if e.Tuple? {
      ChainVars(e.rest, n - 1);
      assert ms == [e.first] + MembersOf(e.rest, n - 1);
      MembersVarsShift(e.first, MembersOf(e.rest, n - 1), 0);
    } else {
      assert MembersVars(ms, 1) == {};
    }
  }

  lemma {:induction false} MembersVarsShift(first: Expr, ms: seq<Expr>, i: nat)
    requires i <= |ms|
    ensures MembersVars([first] + ms, i + 1) == MembersVars(ms, i)
    decreases |ms| - i
  {
    if i < |ms| { MembersVarsShift(first, ms, i + 1); }
  }
}
