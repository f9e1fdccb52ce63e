/** Laws of the language, as equations between programs, and of the code compiled for them. */
module Laws {
  import opened Wrappers
  import opened Syntax
  import opened Semantics
  import opened Bytecode
  import opened Codegen
  import opened Frames
  import opened Representation
  import opened Preservation
  import opened PlainPrograms

  function Sum(a: Expr, b: Expr): Expr { Binary(Plus, a, b) }

  function Difference(a: Expr, b: Expr): Expr { Binary(Minus, a, b) }

  function Product(a: Expr, b: Expr): Expr { Binary(Star, a, b) }

  function Negative(a: Expr): Expr { Unary(UnaryMinus, a) }

  // ----- Words -----

  function Shifted(c: int, k: int): int { c + k * WORD }

  /** The word that differs from `x` by a multiple of 2^64. */
  ghost predicate IsWordOf(c: U64, x: int) {
    exists k: int :: Shifted(c, k) == x
  }

  lemma RemainderIsWord(x: int)
    ensures IsWordOf(x % WORD, x)
  {
    assert Shifted(x % WORD, x / WORD) == x;
  }

  lemma Apart(c: U64, k: int, d: U64, j: int)
    requires k < j
    ensures Shifted(c, k) < Shifted(d, j)
  {
    assert (j - k) * WORD >= WORD;
  }

  /** There is only one such word. */
  lemma OneWord(c: U64, d: U64, x: int)
    requires IsWordOf(c, x) && IsWordOf(d, x)
    ensures c == d
  {
    var k: int :| Shifted(c, k) == x;
    var j: int :| Shifted(d, j) == x;
    if k < j { Apart(c, k, d, j); }
    if j < k { Apart(d, j, c, k); }
  }

  lemma WordsAdd(c: U64, x: int, d: U64, y: int, r: U64)
    requires IsWordOf(c, x) && IsWordOf(d, y) && IsWordOf(r, c as int + d as int)
    ensures IsWordOf(r, x + y)
  {
    var k: int :| Shifted(c, k) == x;
    var j: int :| Shifted(d, j) == y;
    var i: int :| Shifted(r, i) == c as int + d as int;
    assert Shifted(r, i + k + j) == x + y;
  }

  lemma WordsMultiply(c: U64, x: int, d: U64, y: int, r: U64)
    requires IsWordOf(c, x) && IsWordOf(d, y) && IsWordOf(r, c as int * d as int)
    ensures IsWordOf(r, x * y)
  {
    var k: int :| Shifted(c, k) == x;
    var j: int :| Shifted(d, j) == y;
    var i: int :| Shifted(r, i) == c as int * d as int;
    Expand(c, k, d, j);
    assert Shifted(r, i + (c * j + k * d + k * j * WORD)) == x * y;
  }

  lemma Expand(c: int, k: int, d: int, j: int)
    ensures Shifted(c, k) * Shifted(d, j) == c * d + (c * j + k * d + k * j * WORD) * WORD
  {
    assert Shifted(c, k) * Shifted(d, j) == c * d + c * (j * WORD) + k * WORD * d + k * WORD * (j * WORD);
  }

  lemma WordItself(c: U64)
    ensures IsWordOf(c, c)
  {
    assert Shifted(c, 0) == c;
  }

  lemma WordOfNegative(x: U64)
    ensures IsWordOf((WORD - x) % WORD, 0 - x as int)
  {
    var y := WORD - x as int;
    assert Shifted(y % WORD, y / WORD - 1) == 0 - x as int;
  }

  // ----- What the operators compute -----

  lemma ValuesExact(x: U64, y: U64)
    ensures var r := BinaryValue(Plus, IntV(x), IntV(y)); r.Val? && r.v.IntV? && IsWordOf(r.v.n, x as int + y as int)
    ensures var r := BinaryValue(Minus, IntV(x), IntV(y)); r.Val? && r.v.IntV? && IsWordOf(r.v.n, x as int - y as int)
    ensures var r := BinaryValue(Star, IntV(x), IntV(y)); r.Val? && r.v.IntV? && IsWordOf(r.v.n, x as int * y as int)
    ensures BinaryValue(Equals, IntV(x), IntV(y)) == Val(BoolV(x == y))
    ensures var r := UnaryValue(UnaryMinus, IntV(x)); r.Val? && r.v.IntV? && IsWordOf(r.v.n, 0 - x as int)
  {
    hide IsWordOf;
    RemainderIsWord(x as int + y as int);
    RemainderIsWord(x as int - y as int);
    RemainderIsWord(x as int * y as int);
    WordOfNegative(x);
  }

  lemma EvalOperators(op: BinaryOp, a: Expr, b: Expr, u: Value, v: Value, env: Env, fuel: nat)
    requires Eval(a, env, fuel) == Val(u) && Eval(b, env, fuel) == Val(v)
    ensures Eval(Binary(op, a, b), env, fuel) == BinaryValue(op, u, v)
    ensures Eval(Negative(a), env, fuel) == UnaryValue(UnaryMinus, u)
  {
    hide BinaryValue, UnaryValue;
  }

  /** The result of an operator on two numbers is the word of the sum, of the left number less the
      right one, and of the product, and whether they are equal. */
  lemma OperatorsExact(a: Expr, b: Expr, x: U64, y: U64, env: Env, fuel: nat)
    requires Eval(a, env, fuel) == Val(IntV(x)) && Eval(b, env, fuel) == Val(IntV(y))
    ensures var r := Eval(Sum(a, b), env, fuel); r.Val? && r.v.IntV? && IsWordOf(r.v.n, x as int + y as int)
    ensures var r := Eval(Difference(a, b), env, fuel); r.Val? && r.v.IntV? && IsWordOf(r.v.n, x as int - y as int)
    ensures var r := Eval(Product(a, b), env, fuel); r.Val? && r.v.IntV? && IsWordOf(r.v.n, x as int * y as int)
    ensures Eval(Binary(Equals, a, b), env, fuel) == Val(BoolV(x == y))
    ensures var r := Eval(Negative(a), env, fuel); r.Val? && r.v.IntV? && IsWordOf(r.v.n, 0 - x as int)
  {
    hide Eval, BinaryValue, UnaryValue, IsWordOf;
    ValuesExact(x, y);
    EvalOperators(Plus, a, b, IntV(x), IntV(y), env, fuel);
    EvalOperators(Minus, a, b, IntV(x), IntV(y), env, fuel);
    EvalOperators(Star, a, b, IntV(x), IntV(y), env, fuel);
    EvalOperators(Equals, a, b, IntV(x), IntV(y), env, fuel);
  }

  lemma LiteralIs(n: U64, env: Env, fuel: nat)
    ensures Eval(Literal(n), env, fuel) == Val(IntV(n))
  {
  }

  /** Arithmetic has a value only on numbers. */
  lemma OperatorsNeedNumbers(op: BinaryOp, a: Expr, b: Expr, env: Env, fuel: nat)
    requires Eval(Binary(op, a, b), env, fuel).Val? && op != Equals
    ensures op != Slash && Eval(Binary(op, a, b), env, fuel).v.IntV?
    ensures Eval(a, env, fuel).Val? && Eval(a, env, fuel).v.IntV?
    ensures Eval(b, env, fuel).Val? && Eval(b, env, fuel).v.IntV?
  {
  }

  /** Equality has a value only on two numbers or two truth values, and holds of the same ones. */
  lemma EqualityNeeds(a: Expr, b: Expr, env: Env, fuel: nat)
    requires Eval(Binary(Equals, a, b), env, fuel).Val?
    ensures var x, y := Eval(a, env, fuel), Eval(b, env, fuel);
            && x.Val? && y.Val? && ((x.v.IntV? && y.v.IntV?) || (x.v.BoolV? && y.v.BoolV?))
            && Eval(Binary(Equals, a, b), env, fuel) == Val(BoolV(x.v == y.v))
  {
  }

  // ----- Equations -----

  /** If a - b is c, then c + b is a. */
  lemma DifferencePlus(a: Expr, b: Expr, c: U64, env: Env, fuel: nat)
    requires Eval(Difference(a, b), env, fuel) == Val(IntV(c))
    ensures Eval(Sum(Literal(c), b), env, fuel) == Eval(a, env, fuel)
  {
    hide Eval, BinaryValue, UnaryValue, IsWordOf;
    OperatorsNeedNumbers(Minus, a, b, env, fuel);
    var x, y := Eval(a, env, fuel).v.n, Eval(b, env, fuel).v.n;
    OperatorsExact(a, b, x, y, env, fuel);
    LiteralIs(c, env, fuel);
    OperatorsExact(Literal(c), b, c, y, env, fuel);
    var r := Eval(Sum(Literal(c), b), env, fuel).v.n;
    WordItself(y);
    WordsAdd(c, x as int - y as int, y, y, r);
    WordItself(x);
    OneWord(r, x, x);
  }

  /** Addition and multiplication commute. */
  lemma Commutes(op: BinaryOp, a: Expr, b: Expr, env: Env, fuel: nat)
    requires op in {Plus, Star} && Eval(Binary(op, a, b), env, fuel).Val?
    ensures Eval(Binary(op, b, a), env, fuel) == Eval(Binary(op, a, b), env, fuel)
  {
    hide Eval, BinaryValue, UnaryValue, IsWordOf;
    OperatorsNeedNumbers(op, a, b, env, fuel);
    var x, y := Eval(a, env, fuel).v.n, Eval(b, env, fuel).v.n;
    OperatorsExact(a, b, x, y, env, fuel);
    OperatorsExact(b, a, y, x, env, fuel);
    var r, r' := Eval(Binary(op, a, b), env, fuel).v.n, Eval(Binary(op, b, a), env, fuel).v.n;
    TwoFactors(x, y);
    OneWord(r, r', if op == Plus then x as int + y as int else x as int * y as int);
  }

  /** They are associative. */
  lemma Associates(op: BinaryOp, a: Expr, b: Expr, c: Expr, env: Env, fuel: nat)
    requires op in {Plus, Star} && Eval(Binary(op, Binary(op, a, b), c), env, fuel).Val?
    ensures Eval(Binary(op, a, Binary(op, b, c)), env, fuel) == Eval(Binary(op, Binary(op, a, b), c), env, fuel)
  {
    hide Eval, BinaryValue, UnaryValue, IsWordOf;
    OperatorsNeedNumbers(op, Binary(op, a, b), c, env, fuel);
    OperatorsNeedNumbers(op, a, b, env, fuel);
    var x, y, z := Eval(a, env, fuel).v.n, Eval(b, env, fuel).v.n, Eval(c, env, fuel).v.n;
    OperatorsExact(a, b, x, y, env, fuel);
    OperatorsExact(b, c, y, z, env, fuel);
    var xy, yz := Eval(Binary(op, a, b), env, fuel).v.n, Eval(Binary(op, b, c), env, fuel).v.n;
    OperatorsExact(Binary(op, a, b), c, xy, z, env, fuel);
    OperatorsExact(a, Binary(op, b, c), x, yz, env, fuel);
    var l := Eval(Binary(op, Binary(op, a, b), c), env, fuel).v.n;
    var r := Eval(Binary(op, a, Binary(op, b, c)), env, fuel).v.n;
    WordItself(x);
    WordItself(z);
    if op == Plus {
      WordsAdd(xy, x as int + y as int, z, z, l);
      WordsAdd(x, x, yz, y as int + z as int, r);
      OneWord(l, r, x as int + y as int + z as int);
    } else {
      WordsMultiply(xy, x as int * y as int, z, z, l);
      WordsMultiply(x, x, yz, y as int * z as int, r);
      ThreeFactors(x, y, z);
      OneWord(l, r, x as int * y as int * z as int);
    }
  }

  lemma TwoFactors(x: int, y: int)
    ensures x * y == y * x
  {
  }

  lemma SumTimes(x: int, y: int, z: int)
    ensures x * (y + z) == x * y + x * z
  {
  }

  lemma ThreeFactors(x: int, y: int, z: int)
    ensures x * y * z == x * (y * z)
  {
  }

  /** Multiplication distributes over addition. */
  lemma Distributes(a: Expr, b: Expr, c: Expr, env: Env, fuel: nat)
    requires Eval(Product(a, Sum(b, c)), env, fuel).Val?
    ensures Eval(Sum(Product(a, b), Product(a, c)), env, fuel) == Eval(Product(a, Sum(b, c)), env, fuel)
  {
    hide Eval, BinaryValue, UnaryValue, IsWordOf;
    OperatorsNeedNumbers(Star, a, Sum(b, c), env, fuel);
    OperatorsNeedNumbers(Plus, b, c, env, fuel);
    var x, y, z := Eval(a, env, fuel).v.n, Eval(b, env, fuel).v.n, Eval(c, env, fuel).v.n;
    OperatorsExact(b, c, y, z, env, fuel);
    OperatorsExact(a, b, x, y, env, fuel);
    OperatorsExact(a, c, x, z, env, fuel);
    var yz := Eval(Sum(b, c), env, fuel).v.n;
    var xy, xz := Eval(Product(a, b), env, fuel).v.n, Eval(Product(a, c), env, fuel).v.n;
    OperatorsExact(a, Sum(b, c), x, yz, env, fuel);
    OperatorsExact(Product(a, b), Product(a, c), xy, xz, env, fuel);
    var l := Eval(Product(a, Sum(b, c)), env, fuel).v.n;
    var r := Eval(Sum(Product(a, b), Product(a, c)), env, fuel).v.n;
    WordItself(x);
    WordsMultiply(x, x, yz, y as int + z as int, l);
    WordsAdd(xy, x as int * y as int, xz, x as int * z as int, r);
    SumTimes(x, y, z);
    OneWord(l, r, x as int * (y as int + z as int));
  }

  /** 0 and 1 are the units, and -a is 0 - a. */
  lemma Units(a: Expr, x: U64, env: Env, fuel: nat)
    requires Eval(a, env, fuel) == Val(IntV(x))
    ensures Eval(Sum(a, Literal(0)), env, fuel) == Val(IntV(x)) == Eval(Product(a, Literal(1)), env, fuel)
    ensures Eval(Negative(a), env, fuel) == Eval(Difference(Literal(0), a), env, fuel)
  {
    hide Eval, BinaryValue, UnaryValue, IsWordOf;
    LiteralIs(0, env, fuel);
    LiteralIs(1, env, fuel);
    OperatorsExact(a, Literal(0), x, 0, env, fuel);
    OperatorsExact(a, Literal(1), x, 1, env, fuel);
    OperatorsExact(Literal(0), a, 0, x, env, fuel);
    WordItself(x);
    OneWord(Eval(Sum(a, Literal(0)), env, fuel).v.n, x, x);
    OneWord(Eval(Product(a, Literal(1)), env, fuel).v.n, x, x);
    OneWord(Eval(Negative(a), env, fuel).v.n, Eval(Difference(Literal(0), a), env, fuel).v.n, 0 - x as int);
  }

  // ----- Definitions and calls -----

  /** A definition is a call of a function with the body. */
  lemma LetIsCall(x: Symbol, a: Expr, b: Expr, env: Env, fuel: nat, v: Value)
    ensures Eval(Let(x, a, b), env, fuel) == Val(v) ==> Eval(Apply(Lambda(x, b), a), env, fuel + 1) == Val(v)
    ensures Eval(Apply(Lambda(x, b), a), env, fuel) == Val(v) ==> Eval(Let(x, a, b), env, fuel) == Val(v)
  {
    var c := ClosureV(INVALID_SYMBOL, x, b, env);
    assert Eval(Lambda(x, b), env, fuel) == Val(c);
    assert fuel + 1 > 0 && Eval(Lambda(x, b), env, fuel + 1) == Val(c);
    if Eval(Let(x, a, b), env, fuel) == Val(v) {
      EvalMonotonic(a, env, fuel, fuel + 1);
      assert CallEnv(c, Eval(a, env, fuel).v) == Bind(x, Eval(a, env, fuel).v, env);
    }
    if Eval(Apply(Lambda(x, b), a), env, fuel) == Val(v) {
      assert CallEnv(c, Eval(a, env, fuel).v) == Bind(x, Eval(a, env, fuel).v, env);
      EvalMonotonic(b, Bind(x, Eval(a, env, fuel).v, env), fuel - 1, fuel);
    }
  }

  /** The innermost definition of a name counts, and after its scope the one around it again. */
  lemma Scopes(x: Symbol, y: Symbol, a: Expr, b: Expr, env: Env, fuel: nat, v: Value, w: Value)
    requires Eval(a, env, fuel) == Val(v) && Eval(b, Bind(x, v, env), fuel) == Val(w)
    ensures Eval(Let(x, a, Identifier(x)), env, fuel) == Val(v)
    ensures Eval(Let(x, a, Let(y, b, Identifier(x))), env, fuel) == if x == y then Val(w) else Val(v)
    ensures v.IntV? && w.IntV? ==>
              Eval(Let(x, a, Difference(Let(x, b, Identifier(x)), Identifier(x))), env, fuel)
              == Eval(Difference(Literal(w.n), Literal(v.n)), env, fuel)
  {
    hide BinaryValue;
    var outer := Bind(x, v, env);
    assert Lookup(outer, x) == Some(v) && Lookup(Bind(x, w, outer), x) == Some(w);
    assert Lookup(Bind(y, w, outer), x) == if x == y then Some(w) else Some(v);
    assert Eval(Identifier(x), outer, fuel) == Val(v);
    assert Eval(Let(x, b, Identifier(x)), outer, fuel) == Val(w);
    assert Eval(Let(y, b, Identifier(x)), outer, fuel) == if x == y then Val(w) else Val(v);
  }

  /** A function sees the variables of where it is defined, not of where it is called. */
  lemma ScopesAreStatic(x: Symbol, f: Symbol, y: Symbol, a: Expr, b: U64, env: Env, fuel: nat, v: Value)
    requires x != f && x != y && fuel > 0 && Eval(a, env, fuel) == Val(v)
    ensures var call := Let(x, Literal(b), Apply(Identifier(f), Literal(0)));
            Eval(Let(x, a, Let(f, Lambda(y, Identifier(x)), call)), env, fuel) == Val(v)
  {
    var e1 := Bind(x, v, env);
    var c := ClosureV(INVALID_SYMBOL, y, Identifier(x), e1);
    var e2 := Bind(f, c, e1);
    var e3 := Bind(x, IntV(b), e2);
    var call := Apply(Identifier(f), Literal(0));
    assert Lookup(e3, f) == Lookup(e2, f) == Some(c);
    var inner := CallEnv(c, IntV(0));
    assert inner == Bind(y, IntV(0), e1) && Lookup(inner, x) == Lookup(e1, x) == Some(v);
    assert Eval(Identifier(x), inner, fuel - 1) == Val(v);
    assert Eval(Identifier(f), e3, fuel) == Val(c) && Eval(Literal(0), e3, fuel) == Val(IntV(0));
    assert Eval(call, e3, fuel) == Val(v);
    assert Eval(Let(x, Literal(b), call), e2, fuel) == Val(v);
    assert Eval(Let(f, Lambda(y, Identifier(x)), Let(x, Literal(b), call)), e1, fuel) == Val(v);
  }

  /** A conditional is its first branch if the test is true, and its second if it is false. */
  lemma Chooses(t: Expr, a: Expr, b: Expr, env: Env, fuel: nat)
    ensures Eval(If(True, a, b), env, fuel) == Eval(a, env, fuel)
    ensures Eval(If(False, a, b), env, fuel) == Eval(b, env, fuel)
    ensures Eval(t, env, fuel) == Val(BoolV(true)) ==> Eval(If(t, a, b), env, fuel) == Eval(a, env, fuel)
    ensures Eval(t, env, fuel) == Val(BoolV(false)) ==> Eval(If(t, a, b), env, fuel) == Eval(b, env, fuel)
    ensures Eval(If(t, a, b), env, fuel).Val? ==> Eval(t, env, fuel).Val? && Eval(t, env, fuel).v.BoolV?
  {
  }

  // ----- Recursion -----

  /** if n = 0 then 0 else n + f (n - 1) */
  function Adding(f: Symbol, n: Symbol): Expr {
    If(Binary(Equals, Identifier(n), Literal(0)), Literal(0),
       Sum(Identifier(n), Apply(Identifier(f), Difference(Identifier(n), Literal(1)))))
  }

  /** let rec f = fn n => if n = 0 then 0 else n + f (n - 1) in f k */
  function SumTo(f: Symbol, n: Symbol, k: U64): Expr {
    LetRec(f, Lambda(n, Adding(f, n)), Apply(Identifier(f), Literal(k)))
  }

  function Triangle(k: nat): nat {
    if k == 0 then 0 else k + Triangle(k - 1)
  }

  lemma {:induction false} TriangleIsHalf(k: nat)
    ensures 2 * Triangle(k) == k * (k + 1)
  {
    if k > 0 { TriangleIsHalf(k - 1); }
  }

  /** A call with `k` takes `k` more calls and adds up the numbers to `k`. */
  lemma {:induction false} AddingUp(f: Symbol, n: Symbol, k: U64, env: Env)
    requires f != n && f != INVALID_SYMBOL
    ensures var c := ClosureV(f, n, Adding(f, n), env);
            var r := Eval(Adding(f, n), CallEnv(c, IntV(k)), k);
            r.Val? && r.v.IntV? && IsWordOf(r.v.n, Triangle(k))
    decreases k
  {
    var c := ClosureV(f, n, Adding(f, n), env);
    var inner := CallEnv(c, IntV(k));
    AddingScope(f, n, c, k);
    OperatorsExact(Identifier(n), Literal(0), k, 0, inner, k);
    WordItself(0);
    if k > 0 {
      AddingUp(f, n, k - 1, env);
      OperatorsExact(Identifier(n), Literal(1), k, 1, inner, k);
      WordItself(k - 1);
      var less := Difference(Identifier(n), Literal(1));
      OneWord(Eval(less, inner, k).v.n, k - 1, k - 1);
      var call := Apply(Identifier(f), less);
      assert Eval(call, inner, k) == Eval(Adding(f, n), CallEnv(c, IntV(k - 1)), k - 1);
      var d := Eval(call, inner, k).v.n;
      OperatorsExact(Identifier(n), call, k, d, inner, k);
      WordItself(k);
      WordsAdd(k, k, d, Triangle(k - 1), Eval(Sum(Identifier(n), call), inner, k).v.n);
    }
  }

  lemma AddingScope(f: Symbol, n: Symbol, c: Value, k: U64)
    requires f != n && f != INVALID_SYMBOL && c.ClosureV? && c.self == f && c.param == n
    ensures var inner := CallEnv(c, IntV(k));
            && Eval(Identifier(n), inner, k) == Val(IntV(k)) && Eval(Identifier(f), inner, k) == Val(c)
            && Eval(Literal(0), inner, k) == Val(IntV(0)) && Eval(Literal(1), inner, k) == Val(IntV(1))
  {
    var outer := Bind(f, c, c.env);
    var inner := Bind(n, IntV(k), outer);
    assert CallEnv(c, IntV(k)) == inner;
    assert Lookup(inner, f) == Lookup(outer, f) == Some(c);
  }

  /** The recursive function adds up the numbers to `k`: half of k (k + 1), modulo 2^64. */
  lemma SumsUp(f: Symbol, n: Symbol, k: U64)
    requires f != n && f != INVALID_SYMBOL
    ensures var r := Eval(SumTo(f, n, k), Empty, k + 1);
            r.Val? && r.v.IntV? && IsWordOf(r.v.n, k as int * (k as int + 1) / 2)
  {
    var c := ClosureV(f, n, Adding(f, n), Empty);
    var env := Bind(f, c, Empty);
    AddingUp(f, n, k, Empty);
    TriangleIsHalf(k);
    assert Eval(Identifier(f), env, k + 1) == Val(c) && Eval(Literal(k), env, k + 1) == Val(IntV(k));
    assert Eval(Apply(Identifier(f), Literal(k)), env, k + 1) == Eval(Adding(f, n), CallEnv(c, IntV(k)), k);
    assert Eval(SumTo(f, n, k), Empty, k + 1) == Eval(Apply(Identifier(f), Literal(k)), env, k + 1);
  }

  // ----- The compiled code -----

  /** Programs that are equal by a law are compiled to code that computes the same. */
  lemma CompiledAlike(v: Version, e: Expr, e': Expr, fuel: nat)
    requires Compilable(v, e) && Framed(v, e) && Compilable(v, e') && Framed(v, e')
    requires Eval(e, Empty, fuel).Val? && Eval(e', Empty, fuel) == Eval(e, Empty, fuel)
    ensures Computes(Compile(v, e), Eval(e, Empty, fuel).v) && Computes(Compile(v, e'), Eval(e, Empty, fuel).v)
  {
    PreservesSemantics(v, e, fuel);
    PreservesSemantics(v, e', fuel);
  }

  /** If the code for a - b computes c, the code for c + b computes what a is. */
  lemma CompiledDifference(v: Version, a: Expr, b: Expr, c: U64, fuel: nat)
    requires Eval(Difference(a, b), Empty, fuel) == Val(IntV(c))
    requires Compilable(v, Difference(a, b)) && Framed(v, Difference(a, b))
    requires Compilable(v, Sum(Literal(c), b)) && Framed(v, Sum(Literal(c), b))
    ensures Computes(Compile(v, Difference(a, b)), IntV(c))
    ensures Eval(a, Empty, fuel).Val? && Computes(Compile(v, Sum(Literal(c), b)), Eval(a, Empty, fuel).v)
  {
    hide Compilable, Framed, Computes, Compile;
    DifferencePlus(a, b, c, Empty, fuel);
    OperatorsNeedNumbers(Minus, a, b, Empty, fuel);
    PreservesSemantics(v, Difference(a, b), fuel);
    PreservesSemantics(v, Sum(Literal(c), b), fuel);
  }

  lemma NumbersFit(v: Version, op: BinaryOp, a: U64, b: U64)
    requires op != Slash
    ensures var e := Binary(op, Literal(a), Literal(b));
            FreeVars(e) == {} && Plain(v, e) && Framed(v, e) && Fits(Compile(v, e))
  {
    hide Encode;
    var e, c := Binary(op, Literal(a), Literal(b)), EmptyContext(v);
    var d := Allocate(c);
    assert Gen(1, c, Literal(a)) == Emit(d, Encode(LoadImmediate(a, 0)), 0, [], 0);
    assert Gen(1, d, Literal(b)) == Emit(Allocate(d), Encode(LoadImmediate(b, 1)), 1, [], 0);
    SizesOf(a, b, op);
    var z := EmitBinary(1, c, op, Literal(a), Literal(b));
    assert Gen(1, c, e) == z && z.context.registers == 3 && |z.code| <= 24 && z.funcs == [] && z.context.closure == [];
    NumbersArePlain(v, op, a, b);
  }

  lemma NumbersArePlain(v: Version, op: BinaryOp, a: U64, b: U64)
    requires op != Slash
    ensures var e := Binary(op, Literal(a), Literal(b)); FreeVars(e) == {} && Plain(v, e) && Framed(v, e)
  {
    assert FreeVars(Literal(a)) == {} && FreeVars(Literal(b)) == {};
    assert LetNames(Literal(a)) == {} && Room(Literal(a)) == 1 && Room(Literal(b)) == 1;
    assert Tame(Literal(a)) && Tame(Literal(b)) && Supported(Literal(a)) && Supported(Literal(b));
  }

  lemma SizesOf(a: U64, b: U64, op: BinaryOp)
    requires op != Slash
    ensures |Encode(LoadImmediate(a, 0))| <= 10 && |Encode(LoadImmediate(b, 1))| <= 10 && |Encode(Ret)| == 1
    ensures |BinaryCode(op, 0, 1, 2)| == 4
  {
  }

  /** Two numbers and an operator between them: either version of the compiler makes code that
      computes the word of the sum, of the left number less the right one, or of the product, or
      whether they are equal. */
  lemma CompiledNumbers(v: Version, a: U64, b: U64, r: U64)
    ensures IsWordOf(r, a as int + b as int) ==> Computes(Compile(v, Sum(Literal(a), Literal(b))), IntV(r))
    ensures IsWordOf(r, a as int - b as int) ==> Computes(Compile(v, Difference(Literal(a), Literal(b))), IntV(r))
    ensures IsWordOf(r, a as int * b as int) ==> Computes(Compile(v, Product(Literal(a), Literal(b))), IntV(r))
    ensures Computes(Compile(v, Binary(Equals, Literal(a), Literal(b))), BoolV(a == b))
  {
    hide *;
    LiteralIs(a, Empty, 0);
    LiteralIs(b, Empty, 0);
    OperatorsExact(Literal(a), Literal(b), a, b, Empty, 0);
    NumbersComputed(v, Plus, a, b);
    NumbersComputed(v, Minus, a, b);
    NumbersComputed(v, Star, a, b);
    NumbersComputed(v, Equals, a, b);
    SumsAre(Literal(a), Literal(b));
    if IsWordOf(r, a as int + b as int) {
      OneWord(r, Eval(Sum(Literal(a), Literal(b)), Empty, 0).v.n, a as int + b as int);
    }
    if IsWordOf(r, a as int - b as int) {
      OneWord(r, Eval(Difference(Literal(a), Literal(b)), Empty, 0).v.n, a as int - b as int);
    }
    if IsWordOf(r, a as int * b as int) {
      OneWord(r, Eval(Product(Literal(a), Literal(b)), Empty, 0).v.n, a as int * b as int);
    }
  }

  lemma SumsAre(a: Expr, b: Expr)
    ensures Sum(a, b) == Binary(Plus, a, b) && Difference(a, b) == Binary(Minus, a, b)
    ensures Product(a, b) == Binary(Star, a, b)
  {
  }

  lemma NumbersComputed(v: Version, op: BinaryOp, a: U64, b: U64)
    requires op != Slash
    ensures var e := Binary(op, Literal(a), Literal(b));
            Eval(e, Empty, 0).Val? && Computes(Compile(v, e), Eval(e, Empty, 0).v)
  {
    hide *;
    var e := Binary(op, Literal(a), Literal(b));
    NumbersFit(v, op, a, b);
    NumbersEvaluate(op, a, b);
    PlainIsCompilable(v, e);
    PreservesSemantics(v, e, 0);
  }

  lemma NumbersEvaluate(op: BinaryOp, a: U64, b: U64)
    requires op != Slash
    ensures Eval(Binary(op, Literal(a), Literal(b)), Empty, 0).Val?
  {
  }
}
