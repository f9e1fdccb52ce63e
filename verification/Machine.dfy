/** The register machine as a function of its state: what EvaluateCode computes, and the same with a
    check that every instruction gets operands of the kind it is for.

    Addresses are abstract: allocation number k is `Ptr(k)`, and the closure record embedded in a
    function that captures nothing is `Static(f)`. Memory that was allocated but not written is
    `Uninit`, and whatever C leaves undefined (touching a register or slot that does not exist,
    reading an unwritten slot, arithmetic on an address) is a `Fault`. That the first slot of a
    closure is a `Header`, and that of a tuple is not, is seen by the check only. */
module Machine {
  import opened Wrappers
  import opened Syntax
  import opened Bytecode

  datatype Word = Num(n: U64) | Ptr(addr: nat) | Static(func: nat)

  datatype Slot = Uninit | Written(w: Word) | Header(w: Word)

  type Object = seq<Slot>

  type Heap = seq<Object>

  /** A compiled function. `closure` lists the symbols its closure object must hold. */
  datatype Function = Function(code: seq<Byte>, registerCount: nat, closure: seq<Symbol>, resultRegister: Byte)

  type Module = seq<Function>

  datatype State = State(ip: int, regs: seq<Word>, heap: Heap)

  /** What one instruction does to the frame it runs in. */
  datatype Stepped =
    | Next(s: State)
    | Calls(func: nat, closure: Word, arg: Word, dst: Byte)
    | Halt
    | Bad

  /** `fuel` is what is left of the instructions the run was allowed. */
  datatype Result = Done(value: Word, heap: Heap, fuel: nat) | OutOfFuel | Fault

  // ----- Memory -----

  function Load(m: Module, h: Heap, w: Word, slot: int): Option<Word> {
    match w
    case Num(_) => None
    case Ptr(a) => if a < |h| && 0 <= slot < |h[a]| && !h[a][slot].Uninit? then Some(h[a][slot].w) else None
    case Static(f) => if f < |m| && m[f].closure == [] && slot == 0 && f < 0x8000_0000 then Some(Num(f)) else None
  }

  function Store(h: Heap, w: Word, slot: int, v: Word): Option<Heap> {
    if w.Ptr? && w.addr < |h| && 0 <= slot < |h[w.addr]|
    then Some(h[w.addr := h[w.addr][slot := Written(v)]]) else None
  }

  function AllocateTuple(n: nat): Object {
    seq(n, _ => Uninit)
  }

  function AllocateClosure(f: U64, slots: nat): Object {
    [Header(Num(f))] + AllocateTuple(slots)
  }

  /** A function identifier as the machine reads it: a word that indexes the module. */
  function FunctionId(m: Module, w: Word): Option<nat> {
    if w.Num? && w.n < |m| && w.n < 0x8000_0000 then Some(w.n) else None
  }

  // ----- One instruction -----

  function ArithmeticResult(op: Arith, a: Word, b: Word): Option<Word> {
    if a.Num? && b.Num? then
      match op
      case Add => Some(Num((a.n + b.n) % 0x1_0000_0000_0000_0000))
      case Sub => Some(Num((a.n - b.n) % 0x1_0000_0000_0000_0000))
      case Mul => Some(Num((a.n * b.n) % 0x1_0000_0000_0000_0000))
      case Eq => Some(Num(if a.n == b.n then 1 else 0))
    else if op.Eq? && !a.Num? && !b.Num? then Some(Num(if a == b then 1 else 0))
    else None
  }

  function SetRegister(s: State, ip: int, dst: Byte, w: Word): Stepped {
    if dst < |s.regs| then Next(s.(ip := ip, regs := s.regs[dst := w])) else Bad
  }

  /** The word is the address of a closure. */
  predicate IsClosure(m: Module, h: Heap, w: Word) {
    match w
    case Num(_) => false
    case Ptr(a) => a < |h| && |h[a]| > 0 && h[a][0].Header?
    case Static(f) => f < |m| && m[f].closure == []
  }

  /** What is called is a closure, and what is tested is a truth value. */
  predicate Suits(m: Module, i: Instr, s: State) {
    match i
    case Call(funcReg, _, _) => funcReg < |s.regs| && IsClosure(m, s.heap, s.regs[funcReg])
    case JumpIfZero(src, _) => src < |s.regs| && (s.regs[src] == Num(0) || s.regs[src] == Num(1))
    case _ => true
  }

  /** An instruction with the check. */
  function Step(m: Module, code: seq<Byte>, s: State): Stepped {
    match Fetch(code, s.ip)
    case OutOfCode => Bad
    case Fetched(instr, size) => if Suits(m, instr, s) then Execute(m, instr, s.ip + size, s) else Bad
  }

  /** An instruction as it is written, which takes its operands for what it needs. */
  function LooseStep(m: Module, code: seq<Byte>, s: State): Stepped {
    match Fetch(code, s.ip)
    case OutOfCode => Bad
    case Fetched(instr, size) => Execute(m, instr, s.ip + size, s)
  }

  /** Executes `i` in `s`, whose next instruction is at `ip`. */
  function Execute(m: Module, i: Instr, ip: int, s: State): Stepped {
    var regs := s.regs;
    match i
    case Ret => Halt
    case Unknown => Halt
    case LoadImmediate(value, dst) =>
      if value < 0x1_0000_0000_0000_0000 then SetRegister(s, ip, dst, Num(value)) else Bad
    case LoadSlot(src, slot, dst) =>
      if src >= |regs| then Bad else
      (match Load(m, s.heap, regs[src], slot)
       case None => Bad
       case Some(w) => SetRegister(s, ip, dst, w))
    case StoreSlot(obj, slot, src) =>
      if obj >= |regs| || src >= |regs| then Bad else
      (match Store(s.heap, regs[obj], slot, regs[src])
       case None => Bad
       case Some(h) => Next(State(ip, regs, h)))
    case NewClosure(funcReg, dst) =>
      if funcReg >= |regs| then Bad else
      (match FunctionId(m, regs[funcReg])
       case None => Bad
       case Some(f) =>
         if m[f].closure == [] then SetRegister(s, ip, dst, Static(f))
         else SetRegister(s.(heap := s.heap + [AllocateClosure(f, |m[f].closure|)]), ip, dst, Ptr(|s.heap|)))
    case NewTuple(lenReg, dst) =>
      if lenReg >= |regs| || !regs[lenReg].Num? then Bad
      else SetRegister(s.(heap := s.heap + [AllocateTuple(regs[lenReg].n)]), ip, dst, Ptr(|s.heap|))
    case Call(funcReg, argReg, dst) =>
      if funcReg >= |regs| || argReg >= |regs| || dst >= |regs| then Bad else
      (match Load(m, s.heap, regs[funcReg], 0)
       case None => Bad
       case Some(w) =>
         match FunctionId(m, w)
         case None => Bad
         case Some(f) => Calls(f, regs[funcReg], regs[argReg], dst))
    case Arithmetic(op, l, r, dst) =>
      if l >= |regs| || r >= |regs| then Bad else
      (match ArithmeticResult(op, regs[l], regs[r])
       case None => Bad
       case Some(w) => SetRegister(s, ip, dst, w))
    case Negate(src, dst) =>
      if src >= |regs| || !regs[src].Num? then Bad
      else SetRegister(s, ip, dst, Num((0x1_0000_0000_0000_0000 - regs[src].n) % 0x1_0000_0000_0000_0000))
    case Jump(off) => Next(s.(ip := ip + off))
    case JumpIfZero(src, off) =>
      if src >= |regs| then Bad
      else Next(s.(ip := if regs[src] == Num(0) then ip + off else ip))
    case Move(src, dst) =>
      if src >= |regs| then Bad else SetRegister(s, ip, dst, regs[src])
  }

  // ----- Whole runs -----

  /** Continues function `f` from `s` for at most `fuel` instructions, those of its callees
      included, with the check. */
  function Run(m: Module, f: nat, s: State, fuel: nat): (r: Result)
    requires f < |m|
    ensures r.Done? ==> r.fuel < fuel
    decreases fuel, 0
  {
    if fuel == 0 then OutOfFuel else
    match Step(m, m[f].code, s)
    case Bad => Fault
    case Next(t) => Run(m, f, t, fuel - 1)
    case Halt =>
      if m[f].resultRegister < |s.regs| then Done(s.regs[m[f].resultRegister], s.heap, fuel - 1) else Fault
    case Calls(g, closure, arg, dst) =>
      if g >= |m| then Fault else
      match Enter(m, g, closure, arg, s.heap, fuel - 1)
      case Done(w, h, rest) =>
        if dst < |s.regs| then Run(m, f, State(s.ip + 4, s.regs[dst := w], h), rest) else Fault
      case other => other
  }

  /** The frame of a call: all registers zero but the closure and the argument. */
  function Frame(count: nat, closure: Word, arg: Word): seq<Word>
    requires count >= 2
  {
    [closure, arg] + seq(count - 2, _ => Num(0))
  }

  /** One call of function `f`. The closure and the argument are written to registers 0 and 1
      whether or not the frame has them. */
  function Enter(m: Module, f: nat, closure: Word, arg: Word, heap: Heap, fuel: nat): (r: Result)
    requires f < |m|
    ensures r.Done? ==> r.fuel < fuel
    decreases fuel, 1
  {
    if m[f].registerCount < 2 then Fault
    else Run(m, f, State(0, Frame(m[f].registerCount, closure, arg), heap), fuel)
  }

  /** The same without the check. */
  function Loop(m: Module, f: nat, s: State, fuel: nat): (r: Result)
    requires f < |m|
    ensures r.Done? ==> r.fuel < fuel
    decreases fuel, 0
  {
    if fuel == 0 then OutOfFuel else
    match LooseStep(m, m[f].code, s)
    case Bad => Fault
    case Next(t) => Loop(m, f, t, fuel - 1)
    case Halt =>
      if m[f].resultRegister < |s.regs| then Done(s.regs[m[f].resultRegister], s.heap, fuel - 1) else Fault
    case Calls(g, closure, arg, dst) =>
      if g >= |m| then Fault else
      match Evaluate(m, g, closure, arg, s.heap, fuel - 1)
      case Done(w, h, rest) =>
        if dst < |s.regs| then Loop(m, f, State(s.ip + 4, s.regs[dst := w], h), rest) else Fault
      case other => other
  }

  function Evaluate(m: Module, f: nat, closure: Word, arg: Word, heap: Heap, fuel: nat): (r: Result)
    requires f < |m|
    ensures r.Done? ==> r.fuel < fuel
    decreases fuel, 1
  {
    if m[f].registerCount < 2 then Fault
    else Loop(m, f, State(0, Frame(m[f].registerCount, closure, arg), heap), fuel)
  }

  /** A run that passes every check is the run without the checks. */
  lemma {:induction false} CheckedIsLoose(m: Module, f: nat, s: State, fuel: nat)
    requires f < |m| && !Run(m, f, s, fuel).Fault?
    ensures Loop(m, f, s, fuel) == Run(m, f, s, fuel)
    decreases fuel, 0
  {
    hide Execute, Fetch, Suits;
    if fuel > 0 {
      match Step(m, m[f].code, s)
      case Next(t) => CheckedIsLoose(m, f, t, fuel - 1);
      case Calls(g, closure, arg, dst) =>
        CheckedCall(m, g, closure, arg, s.heap, fuel - 1);
        var r := Enter(m, g, closure, arg, s.heap, fuel - 1);
        if r.Done? { CheckedIsLoose(m, f, State(s.ip + 4, s.regs[dst := r.value], r.heap), r.fuel); }
      case _ =>
    }
  }

  lemma {:induction false} CheckedCall(m: Module, f: nat, closure: Word, arg: Word, heap: Heap, fuel: nat)
    requires f < |m| && !Enter(m, f, closure, arg, heap, fuel).Fault?
    ensures Evaluate(m, f, closure, arg, heap, fuel) == Enter(m, f, closure, arg, heap, fuel)
    decreases fuel, 1
  {
    CheckedIsLoose(m, f, State(0, Frame(m[f].registerCount, closure, arg), heap), fuel);
  }

  /** The run without the checks, from `s` in function `f`, comes by state `t` in function `g`. */
  ghost predicate Visits(m: Module, f: nat, s: State, fuel: nat, g: nat, t: State)
    requires f < |m|
    decreases fuel, 0
  {
    fuel > 0 && (
      || (f == g && s == t)
      || match LooseStep(m, m[f].code, s)
         case Next(u) => Visits(m, f, u, fuel - 1, g, t)
         case Calls(h, closure, arg, dst) =>
           h < |m| && (
             || VisitsCall(m, h, closure, arg, s.heap, fuel - 1, g, t)
             || (var r := Evaluate(m, h, closure, arg, s.heap, fuel - 1);
                 r.Done? && dst < |s.regs| &&
                 Visits(m, f, State(s.ip + 4, s.regs[dst := r.value], r.heap), r.fuel, g, t)))
         case _ => false)
  }

  ghost predicate VisitsCall(m: Module, f: nat, closure: Word, arg: Word, heap: Heap, fuel: nat, g: nat, t: State)
    requires f < |m|
    decreases fuel, 1
  {
    m[f].registerCount >= 2 && Visits(m, f, State(0, Frame(m[f].registerCount, closure, arg), heap), fuel, g, t)
  }

  /** The instruction at `t` can be executed, on operands of the kind it is for. */
  predicate Sound(m: Module, g: nat, t: State) {
    g < |m| && var i := Fetch(m[g].code, t.ip);
    i.Fetched? && Suits(m, i.instr, t) && !Execute(m, i.instr, t.ip + i.size, t).Bad?
  }

  /** If the run with the checks does not fault, every instruction that is executed is sound. */
  lemma {:induction false} VisitedIsSound(m: Module, f: nat, s: State, fuel: nat, g: nat, t: State)
    requires f < |m| && !Run(m, f, s, fuel).Fault? && Visits(m, f, s, fuel, g, t)
    ensures Sound(m, g, t)
    decreases fuel
  {
    hide Execute, Fetch, Suits;
    if !(f == g && s == t) {
      match LooseStep(m, m[f].code, s)
      case Next(u) => VisitedIsSound(m, f, u, fuel - 1, g, t);
      case Calls(h, closure, arg, dst) =>
        CheckedCall(m, h, closure, arg, s.heap, fuel - 1);
        if VisitsCall(m, h, closure, arg, s.heap, fuel - 1, g, t) {
          VisitedIsSound(m, h, State(0, Frame(m[h].registerCount, closure, arg), s.heap), fuel - 1, g, t);
        } else {
          var r := Evaluate(m, h, closure, arg, s.heap, fuel - 1);
          VisitedIsSound(m, f, State(s.ip + 4, s.regs[dst := r.value], r.heap), r.fuel, g, t);
        }
      case _ =>
    }
  }

  /** The same outcome with `more` fuel left over. */
  function Shift(r: Result, more: nat): Result {
    if r.Done? then r.(fuel := r.fuel + more) else r
  }

  /** A run that stops, normally or by a fault, is the same under any larger allowance. */
  lemma {:induction false} RunMonotonic(m: Module, f: nat, s: State, fuel: nat, more: nat)
    requires f < |m| && !Run(m, f, s, fuel).OutOfFuel?
    ensures Run(m, f, s, fuel + more) == Shift(Run(m, f, s, fuel), more)
    decreases fuel
  {
    hide Execute, Suits;
    match Step(m, m[f].code, s)
    case Bad =>
    case Next(t) => RunMonotonic(m, f, t, fuel - 1, more);
    case Halt =>
    case Calls(g, closure, arg, dst) =>
      if g < |m| && m[g].registerCount >= 2 {
        var callee := State(0, Frame(m[g].registerCount, closure, arg), s.heap);
        RunMonotonic(m, g, callee, fuel - 1, more);
        var r := Run(m, g, callee, fuel - 1);
        if r.Done? && dst < |s.regs| {
          RunMonotonic(m, f, State(s.ip + 4, s.regs[dst := r.value], r.heap), r.fuel, more);
        }
      }
  }

  // ----- Reaching one state from another -----

  /** From `s`, function `f` executes exactly `k` instructions, calls included, and is then in
      state `t`. */
  ghost predicate Reaches(m: Module, f: nat, s: State, k: nat, t: State)
    requires f < |m|
  {
    forall fuel: nat :: Run(m, f, s, k + fuel) == Run(m, f, t, fuel)
  }

  lemma ReachesTrans(m: Module, f: nat, s: State, k: nat, t: State, n: nat, u: State)
    requires f < |m| && Reaches(m, f, s, k, t) && Reaches(m, f, t, n, u)
    ensures Reaches(m, f, s, k + n, u)
  {
    forall fuel: nat ensures Run(m, f, s, k + n + fuel) == Run(m, f, u, fuel) {
      assert Run(m, f, s, k + (n + fuel)) == Run(m, f, t, n + fuel);
    }
  }

  lemma ReachesStep(m: Module, f: nat, s: State, i: Instr, t: State)
    requires f < |m| && s.ip >= 0
    requires CodeAt(m[f].code, s.ip, Encode(i)) && Encodable(i)
    requires Suits(m, i, s) && Execute(m, i, s.ip + |Encode(i)|, s) == Next(t)
    ensures Reaches(m, f, s, 1, t)
  {
    FetchEncoded(m[f].code, s.ip, i);
    hide Fetch, Encode, Encodable, Execute, CodeAt, Suits;
    forall fuel: nat ensures Run(m, f, s, 1 + fuel) == Run(m, f, t, fuel) {
      RunOne(m, f, s, i, t, fuel);
    }
  }

  lemma RunOne(m: Module, f: nat, s: State, i: Instr, t: State, fuel: nat)
    requires f < |m| && s.ip >= 0 && Fetch(m[f].code, s.ip) == Fetched(i, |Encode(i)|)
    requires Suits(m, i, s) && Execute(m, i, s.ip + |Encode(i)|, s) == Next(t)
    ensures Run(m, f, s, 1 + fuel) == Run(m, f, t, fuel)
  {
    hide Fetch, Encode, Execute, Suits;
  }
}
