# Millie in Dafny

Millie is a small strict ML: a lexer, a recursive-descent parser that interns names, type inference by
destructive unification, a one-pass closure-converting compiler to bytecode, and a register machine. This
project models all of it, from the text of a program to the word the machine returns, in the form the C code
has: buffers that are appended to and patched, cells that are bound and redirected, arrays that entries are
exchanged in, a loop that decodes and runs bytes. Every such method is proved to do what a function or
relation says, and the properties below are proved of those, for all programs, stores, environments and runs.

The code is modelled as it is written, also where it departs from what it is for. Where a property is false
of it, there are concrete programs, and for arbitrary parts the exact condition under which the property holds.
The six departures are parameters of the model, a `Version`: `AsWritten` is the C code, and `AsMeant` differs
from it only in that a name is looked up among the live bindings, a conditional has a result register of its
own, each round of a tuple compiles its own member, a frame has the registers a call sets, the containment
search of the checker does not follow the memo of a variable, and a variable of a recursive definition is not
redirected to itself. Every theorem that is restricted for the code as written by one of them is also proved as
meant, without the restriction.

The parts, each in its own module and file:

- `Syntax`, `Semantics`, `Laws`: expressions and their strict evaluation, bounded by the depth of nested calls; and
  the laws of operators, definitions and calls on whole programs, also for the code compiled for them.
- `Lexer`, `Layout`, `Scanner`: what tokens a text has; that blanks and comments between them do not matter; the
  lexer and the position index.
- `Grammar`, `Derivations`, `ProductionsSound`, `ProductionsComplete`: the productions on what is left of the
  tokens; the relation between tokens and the expression they stand for, without the parser; and that the
  productions read just that expression and report everything else.
- `Printing`, `Parser`, `Source`: printing with few parentheses and the round trip, the parser with the spans of its
  nodes, and text to expression and back.
- `RobinHood`, `SymbolTable`, `Naming`: the order of the hash table on sequences of slots; the table in its two
  arrays, with 32-bit sizes; and the round trip with the symbols it hands out.
- `TypeCells`, `Unification`: types as cells that point to each other, what a store of cells stands for (its
  solutions), and unification as narrowing the solutions down to the unifiers.
- `Schemes`, `Copying`, `Memos`, `CopySteps`, `Halting`, `GeneraliseInstantiate`: type schemes, the copies that
  generalisation and instantiation make, the memos that are in the cells meanwhile, and when copying ends.
- `Typing`, `Combinators`, `TypeSafety`: the typing rules, the types of the smallest program for each construct,
  strict typing, and that strictly typed programs do not get stuck.
- `Inference`, `InferenceRules`, `RecursiveDefinitions`: soundness of inference, rule by rule; `Completeness`: that
  no type is missed; `Analysis`, `Definitions`, `Endless`, `TypeChecker`: both for each kind of expression, where
  checking stops coming back, the smallest programs on which it does not, and the checker itself.
- `Bytecode`, `Machine`, `Interpreter`: bytes and instructions; the machine as a function, without and with a check
  of what instructions are given; the interpreter loop.
- `Codegen`, `Rejections`, `Compiler`: what the compiler emits, which programs it turns away, and the compiler that
  emits it in place.
- `Frames`, `ClosureConversion`, `Representation`, `Safety`, `Simulation`, `Preservation`, `Divergence`: how many
  registers a program takes; captured symbols are free variables; when words and objects represent values; where
  the compiler is right; and that the machine computes what the source does and runs as long.
- `PlainPrograms`, `Departures`, `Counterexamples`: when a program is compiled correctly by its text alone; what
  the code as written computes otherwise, for arbitrary parts; and the smallest programs that show it.
- `Wrappers`, `Division`: options and the two versions; quotients and remainders.
- `Driver`: the phases one after the other, and the result about them all.

The main results: `Driver.RunSource` and `Driver.TypedProgramRuns` (text to result),
`Preservation.PreservesSemantics` and `Divergence.TerminationAgrees` (the compiler),
`TypeChecker.CheckContext.GetExpressionType` and `TypeSafety.TypesAreSafe` (types), `Unification.UnifiedExactly`
(unification), `SymbolTable.SymbolTable.FindOrCreateSymbol` with `SymbolTable.SymbolsAreNames` (interning),
`Source.FrontExactly` with `Source.SourceRoundTrip` and `Layout.GapsMakeNoDifference` (the front end),
`Rejections.ProgramCompiles` (what the compiler turns away), and `Laws.CompiledNumbers` with the laws before it
(what programs compute).

## Model

| member | source | states |
|---|---|---|
| Driver.RunSource | millie.c:223-265 | reading, checking, compiling and running a text, in both versions: the program is the one the text stands for, and it is run only if it has a type and every part of it compiles; it is turned away by the checker only if it has no type and by the compiler only if it does not compile; as meant every strictly typed one with supported operators that fits the bytecode runs without a fault and a result represents its value, as written every one that is also tame and has room for a call |
| Driver.RunProgram | millie.c:246-265 | a program is run only if it has a type and compiles without errors, which is a condition on its text, then with the result of its code; the checker turns it away only if it has no type, the compiler only if it has a type and does not compile, and the checker is lost exactly at a definition that does not settle, as meant never; every strictly typed program the compiler is ready for, which as meant is every one with supported operators that fits, is compiled without errors, executes every instruction on operands of its kind, and returns the representation of its value, of its type, or needs more instructions |
| Driver.TypedProgramRuns | millie.c:246-265 | type safety of compiled code: for a strictly typed program that the compiler is ready for, every call is of a closure and every test of 0 or 1, no instruction faults, and the run either needs more instructions or returns the representation of the program's value, which has its type; while the source evaluation is unfinished the machine is too |
| Driver.CheckedRun | runtime.c:198-419 | a run that passes the checks is the run of the loop as it is written, and every instruction it executes is sound |
| Preservation.PreservesSemantics | compiler.c:691-711 | as meant every closed program without errors that fits the bytecode compiles to a module that computes its value; as written every one without the three faulty events does, if and only if its text takes the two registers that every call sets |
| Preservation.UnframedFaults | runtime.c:205-209 | a closed program that takes fewer than two registers faults at once, with and without the checks |
| Preservation.ComputesUnchecked | runtime.c:198-419 | what a module computes it computes without the checks as well |
| Frames.FrameExact | compiler.c:204-228 | a closed program without errors has a frame for a call as meant always, and as written exactly if its text takes two registers, counting literals, operators and calls as one each and functions and tuples as two |
| Preservation.SimulateProgram | runtime.c:198-268 | a run of the compiled program from null closure and argument returns a word and a heap that represent the value of the source |
| Preservation.ReturnsExactly | runtime.c:198-419 | a call that returns after k instructions returns the same for every allowance of at least k and runs out of any smaller one |
| Divergence.Diverge | runtime.c:198-419 | an evaluation that needs more nested calls than some bound is compiled to a run of more instructions than that bound, for every expression, context and environment |
| Divergence.PreservesDivergence | compiler.c:691-711 | a source evaluation that has not finished means a machine that has not finished |
| Divergence.TerminationAgrees | compiler.c:691-711 | unless the source gets stuck, the machine stops exactly when the source has a value, then with that value, and never faults; as meant without a condition on names, branches, tuples or registers |
| PlainPrograms.PlainIsCompilable | compiler.c:264-321 | supported operators, and as written also a condition on names, branches and tuples in the source text, are enough for the whole program to be free of the faulty events, so that preservation applies |
| PlainPrograms.MeantIsCompilable | compiler.c:691-711 | as meant every closed program with supported operators that fits the bytecode is compiled without errors and within reach of preservation: no name, branch or tuple is excluded |
| PlainPrograms.PlainIsGood | compiler.c:403-453 | code as meant, and plain code as written, only ever copies into registers that were free when it was begun, in every context without stale bindings |
| PlainPrograms.StaysFresh | compiler.c:183-202 | code for an expression that binds none of a set of names leaves no popped binding for any of them |
| Departures.ShadowingExact | compiler.c:264-280 | the scan that begins one past the top, for arbitrary parts of `let x = a in (let y = b in d) op r`: the program computes the operator for what r is when y has its inner value, so it is right exactly if that is the same result |
| Departures.StaleGen | compiler.c:264-280 | code that binds no name is the same whether the binding one past the top has been popped or not |
| Departures.ShadowedOperands | compiler.c:264-280 | in any context, scope and environment the second operand is computed for the inner definition, which is out of scope |
| Departures.ChoosingExact | compiler.c:590-612 | the copy into the register of the then-branch, for arbitrary parts of `let x = a in let y = (if t then x else b) in body`: the program computes what the body is when x has the value of y, so a number or truth value is right exactly if the body gives the same word for both values of x |
| Departures.ChoosingRuns | compiler.c:590-612 | in any context the machine goes on with the branch's value for both variables |
| Departures.TupleExact | compiler.c:639-654 | every round compiles the first member again: the program builds copies of the first value, and is right exactly if the word in each slot represents that member's value; for numbers and truth values exactly if they are all the same word |
| Counterexamples.ShadowingLiteralsExact | compiler.c:264-280 | `let y = a in (let y = b in y) + y` on literals is compiled right exactly if a equals b |
| Counterexamples.ChoosingLiteralsExact | compiler.c:590-612 | `let x = a in let y = if t then x else b in x` on literals is compiled right exactly if t holds or a equals b |
| Counterexamples.PairExact | compiler.c:639-654 | the pair of two literals is compiled right exactly if they are equal |
| Counterexamples.ConstantFaults | runtime.c:205-209 | a program that is one literal faults as written, whatever it is allowed, and is computed as meant |
| Departures.TupleRuns | compiler.c:639-654 | in any context the machine builds a tuple of copies of the first member's value |
| Simulation.Simulate | compiler.c:659-689 | from any state whose registers and closure represent the environment, the code of an expression runs to its end, its register represents the value, and every other live variable keeps its register; as written for expressions without the three events, as meant for all that fit |
| Simulation.SimulateIdentifier | compiler.c:264-321 | a variable's code gives a register with its value, whether it is bound, the function itself or in the closure |
| Simulation.SimulateLambda | compiler.c:330-401 | the closure made for a lambda represents the function value in the defining environment, however deep the lambdas are nested |
| Simulation.SimulateCaptures | compiler.c:373-388 | after the stores slot i + 1 of a new closure holds the i-th captured symbol's value |
| Simulation.SimulateNewClosure | runtime.c:356-377 | allocating and filling a closure builds an object for the function with its captured values and touches nothing older |
| Simulation.SimulateLet | compiler.c:403-411 | the register of a definition represents its value throughout the body, although it may be shared |
| Simulation.SimulateRecursive | compiler.c:413-453 | the closure of a recursive function, which never stores itself, represents the recursive function value |
| Simulation.SimulateLetRec | compiler.c:413-453 | a recursive definition and its body compute what the source does |
| Simulation.BodyReady | runtime.c:198-216 | at the start of a call the frame represents the environment of the call: argument, captured variables, and through r0 the recursive function itself |
| Simulation.SimulateFunction | runtime.c:251-268 | running a function's code from a fresh frame returns a representation of the value of its body |
| Simulation.SimulateApply | compiler.c:455-474 | a call computes the application, and the caller's registers survive it |
| Simulation.SimulateBinary | compiler.c:476-510 | the operator is applied to both operands' values, left and right as in the source, the first operand being unharmed by the code of the second; what the operators compute is in module Laws |
| Simulation.SimulateUnary | compiler.c:512-537 | negation of the operand's value modulo 2^64 |
| Simulation.IfPlaced | compiler.c:539-619 | after patching, both jumps of a conditional lead to the instruction boundaries they are meant for |
| Simulation.SimulateIf | compiler.c:539-619 | a conditional ends with the value of the chosen branch in its result register and skips the other branch; as meant the result register is a new one, as written that of the then-branch |
| Simulation.SimulateTuple | compiler.c:631-657 | a tuple becomes an object with its members' values; as written only if they are compiled from equal members |
| Representation.RepKeeps | runtime.c:356-397 | a value stays represented while the heap only grows |
| Representation.ReadyKeeps | compiler.c:164-202 | live variables survive any code that spares their registers |
| Representation.ReadyPush | compiler.c:183-196 | a new binding represents the extended environment |
| Representation.ResultTaken | compiler.c:164-169 | a result is in a register that counts as taken or belongs to a live variable |
| Safety.FindGrows | compiler.c:264-280 | code that adds no binding leaves the register of every name in scope what it was |
| ClosureConversion.ClosureIsFreeVars | compiler.c:287-321 | compiling an expression only appends to the list of captured symbols, without duplicates, exactly its free variables that are not bound in the function; asked for are proper tuples, recursive definitions of functions and no error nodes, and as written also that no name looked up has a popped binding one past the top and that tuples have equal members |
| ClosureConversion.FunctionCaptures | compiler.c:330-388 | the finished list of a function is duplicate-free and holds exactly the free variables of its lambda without its own recursive name, under the same conditions |
| ClosureConversion.SymbolsCaptured | compiler.c:373-388 | loading the captured symbols of an inner function captures in the outer one exactly those it does not bind |
| Semantics.EvalMonotonic | readme.md:4 | the value of an evaluation does not depend on the bound on nested calls once that suffices |
| Semantics.MembersEvaluate | parser.c:149-170 | the value of a tuple has the values of its members in order, and if it runs out of calls so does one member after others that have values |
| Laws.OperatorsExact | runtime.c:273-326 | of operands that are words the sum, the left one less the right one, the product and the negative differ from the result by a multiple of 2^64, and equality is true exactly for the same word |
| Laws.OperatorsNeedNumbers | runtime.c:273-304 | arithmetic has a value only if both operands are numbers, and division never |
| Laws.EqualityNeeds | runtime.c:315-326 | equality has a value only on two numbers or two truth values, and then it says whether they are the same |
| Laws.DifferencePlus | runtime.c:284-293 | if a - b evaluates to c, then c + b evaluates to what a does |
| Laws.Commutes | runtime.c:273-304 | whenever a + b or a * b has a value, it is that of the swapped operands |
| Laws.Associates | runtime.c:273-304 | sums and products may be grouped either way |
| Laws.Distributes | runtime.c:273-304 | a * (b + c) evaluates to what a * b + a * c does |
| Laws.Units | runtime.c:273-314 | a + 0 and a * 1 are a, and -a is 0 - a |
| Laws.LetIsCall | compiler.c:403-411 | a definition evaluates to what a call of a function with its body does, with one more call allowed |
| Laws.Scopes | compiler.c:164-202 | the innermost definition of a name counts, and after its scope the one around it again |
| Laws.ScopesAreStatic | compiler.c:264-321 | a function sees the variables of where it was defined although the name is bound again where it is called |
| Laws.Chooses | compiler.c:539-619 | a conditional is one of its branches by the value of its test, which has to be a truth value |
| Laws.SumsUp | compiler.c:413-453 | the recursive function that adds up the numbers to k gives half of k (k + 1), modulo 2^64, with k + 1 calls, for every word k |
| Laws.CompiledAlike | compiler.c:691-711 | programs within reach of preservation that are equal by a law compile to modules that compute the same value |
| Laws.CompiledDifference | runtime.c:284-293 | if the code for a - b computes c, the code for c + b computes what a is |
| Laws.CompiledNumbers | compiler.c:476-510 | for all words a and b, in both versions, the code of a + b, a - b and a * b computes the word of the sum, of a less b and of the product, and that of a = b whether they are the same |
| Bytecode.LittleEndianRoundTrip | compiler.c:135-162 | a number written in n bytes and read back is the number modulo 256 to the n, and so itself if it fits |
| Bytecode.FetchEncoded | runtime.c:218-245 | decoding at the place of an encoded instruction gives the instruction and its end, exactly if its operands fit their bytes; in particular the width chosen for a literal always reloads it |
| Bytecode.CodeAtSplit | compiler.c:118-133 | code is somewhere in a buffer exactly if its halves are, one after the other |
| Machine.RunMonotonic | runtime.c:218-419 | a run that ends is the same with more fuel, which is left over |
| Machine.ReachesTrans | runtime.c:218-419 | steps compose |
| Machine.ReachesStep | runtime.c:218-249 | one decoded instruction is one step |
| Machine.CheckedIsLoose | runtime.c:218-419 | a run in which every call is of a closure and every test of 0 or 1 is the run without these checks |
| Machine.VisitedIsSound | runtime.c:218-419 | if the run with the checks does not fault, every instruction that the run without them executes, in whatever function, can be executed and gets operands of its kind |
| Compiler.CompileContext.WriteCodeU16 | compiler.c:135-140 | two bytes, low one first, are appended or overwritten at the write position |
| Compiler.CompileContext.WriteCodeU32 | compiler.c:142-149 | four bytes, low one first |
| Compiler.CompileContext.WriteCodeU64 | compiler.c:151-162 | eight bytes, low one first |
| Compiler.CompileContext.Patch | compiler.c:575-583 | a reserved hole is filled once with the distance to the current position, and nothing else changes |
| Compiler.CompileContext.WriteLoadLiteral | compiler.c:238-256 | the shortest of the four immediate loads that holds the literal is emitted |
| Compiler.CompileContext.CompileIdentifierImpl | compiler.c:264-321 | emits what the specification emits for a name, growing the closure by at most that name |
| Compiler.CompileContext.CompileFunction | compiler.c:330-371 | the function's place in the module, reserved before its body, ends with its finished code, register count and captured symbols, functions of inner lambdas following it |
| Compiler.CompileContext.StoreCaptures | compiler.c:373-388 | emits the loads and stores for all captured symbols in order |
| Compiler.CompileContext.CompileLambda | compiler.c:391-401 | emits exactly the specified code, context, functions and errors for a lambda |
| Compiler.CompileContext.CompileLet | compiler.c:403-411 | emits exactly the specification for a definition and pops its binding |
| Compiler.CompileContext.CompileLetRec | compiler.c:413-453 | emits exactly the specification for a recursive definition, errors included; by Rejections there is none exactly if the value is a function that compiles and the body compiles |
| Compiler.CompileContext.CompileApply | compiler.c:455-474 | emits exactly the specification for an application |
| Compiler.CompileContext.CompileBinary | compiler.c:476-510 | emits exactly the specification for an operator, errors included; by Rejections there is none exactly if it is no division and both operands compile |
| Compiler.CompileContext.CompileUnary | compiler.c:512-537 | emits exactly the specification for negation, errors included; by Rejections there is none exactly if it is no unary plus and the operand compiles |
| Compiler.CompileContext.CompileIf | compiler.c:539-619 | emits exactly the specification for a conditional, with both holes patched |
| Compiler.CompileContext.CompileTuple | compiler.c:631-657 | emits exactly the specification for a tuple, as written, first member every time |
| Compiler.CompileContext.CompileExpression | compiler.c:659-689 | the buffer, bindings, registers, closure, module and errors after compiling are those of the functional specification, whatever they were before |
| Compiler.CompileContext.FinishCompile | compiler.c:204-228 | ends the code with a return and hands over code, register count and symbols |
| Compiler.CompileProgram | compiler.c:691-711 | the module built in place is the specified module, and as many errors are reported |
| Compiler.PatchedTest | compiler.c:575-583 | filling the hole of the test in the buffer gives the code with the right offset |
| Rejections.CompilesExactly | compiler.c:659-689 | in any context the compiler reports no error exactly if there is no division, no unary plus, every recursive definition is of a function and there is no stray node, in what it compiles: as written of a tuple only the first member |
| Rejections.ProgramCompiles | compiler.c:691-711 | so it is for whole programs: a condition on the text, both ways, in both versions |
| Interpreter.ReadU16 | runtime.c:142-148 | the little-endian value of two bytes |
| Interpreter.ReadU32 | runtime.c:150-158 | the little-endian value of four bytes |
| Interpreter.ReadU64 | runtime.c:160-172 | the little-endian value of eight bytes |
| Interpreter.ReadInstr | runtime.c:218-245 | reading opcode and operands byte by byte decodes the instruction and leaves the pointer at its end |
| Interpreter.ExecuteLocal | runtime.c:247-406 | every instruction but a call has the effect on frame and heap that the machine says |
| Interpreter.EvaluateCode | runtime.c:198-419 | the loop, with its calls of itself, returns what the machine without the checks returns and leaves the same heap |
| Unification.UnifiedExactly | typecheck.c:542-590 | an error is reported exactly if there is no unifier, and otherwise the solutions that are left are exactly the unifiers, so the result is most general |
| Unification.OccursFails | typecheck.c:561-566 | a variable that is part of the other type has no unifier with it |
| Unification.BindUnifies | typecheck.c:566-568 | binding a variable to a type it is not part of keeps the store free of circles and loses no unifier |
| Unification.KindsDiffer | typecheck.c:570-573 | types of different kinds have no unifier |
| Unification.ArgumentsUnify | typecheck.c:575-588 | unifying the arguments one after the other, also after a failure, unifies the types |
| TypeCells.ResolvedSolves | typecheck.c:45-52 | a store without circles is in solved form: its unbound variables may be given any types |
| TypeCells.ResolvedUnique | typecheck.c:45-52 | the types of the unbound variables determine those of all cells |
| TypeCells.WithinSmaller | typecheck.c:24-31 | what a type contains is smaller than the type in every solution |
| TypeCells.BindRanked | typecheck.c:561-568 | binding to a type that does not contain the variable makes no circle |
| TypeChecker.CheckContext.PruneTypeExp | typecheck.c:45-52 | ends, at the last cell of the chain of bindings |
| TypeChecker.CheckContext.IsTypeContainedWithin | typecheck.c:24-31 | the answer of the search through all pointers, memos included, or that it never ends |
| TypeChecker.CheckContext.IsTypeNonGeneric | typecheck.c:33-43 | the same over the list of enclosing parameters |
| TypeChecker.CheckContext.UnifyImpl | typecheck.c:542-590 | ends on every store without circles, leaves one, and achieves what Unification says |
| TypeChecker.CheckContext.Unify | typecheck.c:592-604 | an error exactly if the types have no unifier, otherwise exactly the unifiers remain |
| Memos.SearchSound | typecheck.c:24-43 | a search that ends has the right answer although it follows memos |
| Memos.SearchEnds | typecheck.c:24-31 | without memos every search ends |
| Memos.MarkedParameter | typecheck.c:28-30 | a parameter that is its own memo makes the search for another one endless, exactly if it is another one |
| Memos.MeantEnds | typecheck.c:24-31 | following only the binding of a variable and not its memo, every search ends, whatever has been marked |
| Halting.SearchScans | typecheck.c:24-31 | in a store that is being generalised the search through all pointers is the scan of the parameter's variables in order, endless at the first marked one |
| Halting.WholeEnds | typecheck.c:116-210 | as written generalisation ends exactly if, wherever a variable of the enclosing parameters comes before another variable in the type, the other one comes before it in the parameters |
| Definitions.ComesBack | typecheck.c:698-764 | the checker comes back exactly if every definition that it comes to settles |
| Endless.PairDoesNotSettle | typecheck.c:28-30 | in `fn x => fn y => let z = (y, x) in z` the definition of z does not settle as written, and does as meant |
| Endless.PairFound | typecheck.c:705-715 | and that definition, with its store, is one that the checker's steps lead to |
| Endless.LinkDoesNotSettle | typecheck.c:755-761 | in `fn y => let rec x = y in x` the definition of x does not settle as written, and does as meant |
| Endless.LinkFound | typecheck.c:739-761 | and that definition, with its store, is one that the checker's steps lead to |
| Copying.CopiedResolve | typecheck.c:116-273 | a copy stands for what the original does when its leaves get the types of their replacements |
| Copying.CopiedLeaf | typecheck.c:116-273 | a copy contains only replacements and leaves that are not replaced |
| TypeChecker.CheckContext.MakeGenericTypeExpImpl | typecheck.c:116-199 | marks the variables of a type and copies it, sharing unchanged parts; it ends exactly if the search for each variable of the type that has no copy yet meets no marked variable of the enclosing parameters before it (always, as meant) |
| TypeChecker.CheckContext.MakeGenericTypeExp | typecheck.c:201-210 | the type with exactly the variables outside enclosing parameters replaced by new generic ones, and no memo left; as written it ends exactly if, wherever a variable of the parameters comes before another variable in the type, the other one comes before it in the parameters; as meant always |
| TypeChecker.CheckContext.MakeFreshTypeExpCopy | typecheck.c:217-273 | copies a type with a new variable for each generic one |
| TypeChecker.CheckContext.MakeFreshTypeExp | typecheck.c:275-281 | the same, with no memo left |
| TypeChecker.CheckContext.CleanupTypeVariables | typecheck.c:95-106 | clears the memos of all variables of a type and changes no type |
| GeneraliseInstantiate.GeneraliseThenInstantiate | typecheck.c:108-114 | generalising and instantiating gives the type up to a one-to-one renaming that keeps the variables of enclosing parameters and replaces exactly the others, by new variables |
| TypeChecker.CheckContext.LookupType | typecheck.c:319-330 | a new instance of the innermost type of a name |
| Schemes.InstancesLater | typecheck.c:319-330 | a scheme has the same instances after the store has evolved |
| Schemes.ContextLater | typecheck.c:319-330 | so have all names in scope |
| Inference.Instantiated | typecheck.c:646-667 | the type of a use is one of the instances of the name's type, with only new variables besides those of enclosing parameters |
| Inference.InferIdentifier | typecheck.c:646-667 | a use has the type found, whatever the unbound variables stand for |
| InferenceRules.InferApply | typecheck.c:612-644 | an application has the type of the new variable once callee and argument are unified |
| InferenceRules.InferLambda | typecheck.c:669-696 | a function has the type from its parameter to its body |
| InferenceRules.DefinitionHas | typecheck.c:705-715 | the definition itself has every instance of its generalised type |
| InferenceRules.InferLet | typecheck.c:698-724 | a definition and its body are typed with let-polymorphism |
| InferenceRules.InferIf | typecheck.c:766-787 | a conditional has the common type of its branches |
| InferenceRules.InferOperator | typecheck.c:796-849 | an operator on operands of the types it needs has its result type |
| InferenceRules.InferTuple | typecheck.c:864-875 | a tuple has the tuple of its members' types |
| RecursiveDefinitions.RedirectedUnmoved | typecheck.c:755-761 | redirecting the name's variable changes no type whose variables are all part of enclosing parameters |
| RecursiveDefinitions.RedirectedRanked | typecheck.c:755-761 | redirecting makes no circle, unless the variable would point to itself |
| RecursiveDefinitions.SelfLinkExact | typecheck.c:757-761 | the variable would point to itself exactly if it is unbound and part of the type of an enclosing parameter |
| RecursiveDefinitions.RecDefinitionHas | typecheck.c:747-761 | the definition has every instance of its type when its name has just that instance inside |
| RecursiveDefinitions.InferLetRec | typecheck.c:726-764 | a recursive definition and its body are typed, polymorphic in the body |
| RecursiveDefinitions.InferKept | typecheck.c:755-761 | keeping the name's variable where it would be linked to itself types the definition as well |
| Completeness.BothFound | typecheck.c:612-644 | of two expressions checked one after the other every pair of types is reached by some choice for the unbound variables, unless an error was reported, and then they have no types together |
| Completeness.PartsUnified | typecheck.c:612-849 | unifying as the typing rule asks keeps exactly the pairs of types that fit the rule, and fails if there are none |
| Completeness.IdentifierPrincipal | typecheck.c:646-667 | every type that a name can be used at is reached from the copy made for the use by some choice for its unbound variables |
| TypeChecker.CheckContext.AnalyzeIdentifier | typecheck.c:646-667 | an error exactly if the name has no type, and otherwise every type of it is an instance of the one found |
| TypeChecker.CheckContext.AnalyzeApply | typecheck.c:612-644 | an error exactly if the application has no type, and otherwise every type of it is an instance of the one found, binding only variables of enclosing parameters and new ones |
| TypeChecker.CheckContext.AnalyzeLambda | typecheck.c:669-696 | an error exactly if the function has no type, and otherwise every type of it is an instance of the one found |
| TypeChecker.CheckContext.AnalyzeLet | typecheck.c:698-724 | sound and exact: an error exactly if the expression has no type, and otherwise every type is an instance of the one found; it does not come back exactly if, as written, some definition it comes to does not settle: its own, once its value has been analysed, if the variables of its type are not in the order of the parameters |
| TypeChecker.CheckContext.AnalyzeLetRec | typecheck.c:726-764 | sound and exact: an error exactly if the expression has no type, and otherwise every type is an instance of the one found; it does not come back exactly if, as written, some definition it comes to does not settle: its own if the variables are not in order or its variable would be redirected to itself |
| TypeChecker.CheckContext.AnalyzeIf | typecheck.c:766-787 | an error exactly if the conditional has no type, and otherwise every type of it is an instance of the one found |
| TypeChecker.CheckContext.AnalyzeBinary | typecheck.c:807-849 | an error exactly if the operation has no type, and otherwise every type of it is an instance of the one found |
| TypeChecker.CheckContext.AnalyzeTuple | typecheck.c:864-875 | an error exactly if the tuple has no type, and otherwise every type of it is an instance of the one found |
| TypeChecker.CheckContext.Analyze | typecheck.c:889-960 | soundness and completeness of inference for every expression, environment and store: an error exactly if there is no type, otherwise every type is an instance of the one found; the definitions in the expression are come to in order up to the first that does not settle, and it comes back exactly if there is none, as meant always |
| TypeChecker.CheckContext.GetExpressionType | typecheck.c:962-974 | an error is reported exactly if the program has no type, and otherwise the types of the program are exactly the instances of the type found; checking ends exactly if every definition of the program that is come to settles, as meant always |
| Typing.WiderHasType | typecheck.c:698-724 | names that can be used at more types keep all types of an expression |
| Combinators.IdentityTypes | typecheck.c:669-696 | `fn x => x` is of exactly the types a -> a |
| Combinators.CallTypes | typecheck.c:612-644 | `fn f => fn x => f x` is of exactly the types (a -> b) -> a -> b |
| Combinators.OperatorTypes | typecheck.c:796-849 | `fn x => fn y => x op y` is of the type int -> int -> int alone, and for equality of exactly the types a -> a -> bool |
| Combinators.NegationTypes | typecheck.c:851-862 | `fn x => -x` is of exactly the types a -> a |
| Combinators.ChoiceTypes | typecheck.c:766-787 | `fn c => fn x => if c then x else x` is of exactly the types bool -> a -> a |
| Combinators.BranchTypes | typecheck.c:766-787 | `fn c => fn x => if c then x else 0` is of the type bool -> int -> int alone |
| Combinators.PairTypes | typecheck.c:864-875 | `fn x => fn y => (x, y)` is of exactly the types a -> b -> a * b |
| Combinators.PolymorphicTypes | typecheck.c:698-724 | `let i = fn x => x in i i` is of exactly the types a -> a: the uses of i differ in type |
| Combinators.NoSelfApplication | typecheck.c:561-566 | `fn x => x x` has no type in any context |
| Combinators.RecursiveFunctionTypes | typecheck.c:726-764 | `let rec f = fn x => f x in f` is of exactly the function types |
| TypeSafety.TypesAreSafe | typecheck.c:889-960 | a strictly typed expression with supported operators never gets stuck, and its value has its type |
| Typing.StrictIsTyped | typecheck.c:802-862 | strict typing, where negation is of integers and equality of integers or truth values, is typing |
| Typing.SensibleIsStrict | typecheck.c:802-862 | if every operand of a negation and one operand of every equality shows its type by its form, typing is strict typing |
| TypeSafety.CalleeContext | runtime.c:251-268 | a value of function type is a closure whose body is strictly typed in the environment of the call |
| TypeSafety.TypedIsClosed | typecheck.c:657-664 | a well-typed expression uses only names in scope |
| TypeSafety.NegationExact | typecheck.c:851-862 | negation is accepted on every type and gets stuck exactly on what is not a number |
| TypeSafety.EqualityExact | typecheck.c:802 | equality is accepted on every type and gets stuck exactly on functions and tuples |
| RobinHood.Chain | symboltable.c:42-48 | all slots from an entry back to its home are occupied, by entries at least as far from their homes as the walk still is |
| RobinHood.EarlyExit | symboltable.c:132-139 | a lookup that stops at an empty slot, or at an entry closer to its home, has missed nothing |
| RobinHood.PutOrdered | symboltable.c:79-88 | an exchange keeps the order of the table |
| RobinHood.PutEntries | symboltable.c:79-88 | an exchange loses no entry, counting the one in hand |
| RobinHood.Displaced | symboltable.c:86-95 | the displaced entry can be carried on from the next slot |
| RobinHood.RoomLeft | symboltable.c:55 | with fewer entries than slots there is an empty slot |
| SymbolTable.MaskIsRemainder | symboltable.c:37-48 | masking with one less than a power of two is taking the remainder |
| SymbolTable.CapacitySteps | symboltable.c:50-57 | with the 32-bit product in the threshold, the table doubles exactly when the number of symbols reaches the threshold of its capacity, and always has an empty slot, up to the limit of 34896612 symbols |
| SymbolTable.SymbolTable.ProbeIsOffset | symboltable.c:42-48 | the distance computed with wrapping words is the number of steps round the table |
| SymbolTable.SymbolTable.InsertHelper | symboltable.c:66-97 | ends with exactly the old entries and the new one, in order |
| SymbolTable.SymbolTable.Grow | symboltable.c:99-122 | twice the capacity, exactly the same entries, in order |
| SymbolTable.SymbolTable.Find | symboltable.c:124-144 | the symbol of a key, or 0 exactly if the key was never interned |
| SymbolTable.SymbolTable.FindOrCreateSymbol | symboltable.c:168-185 | an old key keeps its symbol and a new one gets the next; it succeeds for every known key and for a new one exactly below the limit |
| SymbolTable.SymbolTable.FindSymbolKey | symboltable.c:187-199 | the inverse: the key of every symbol handed out, and nothing for other numbers |
| SymbolTable.SymbolsAreStable | symboltable.c:168-185 | symbols never change over any run of calls |
| SymbolTable.SymbolsAreNames | symboltable.c:168-185 | over any run of calls the symbols 1 to n are one for each of the keys asked for |
| Printing.RoundTripAt | parser.c:145-347 | reading what was printed at any of the nine levels gives the expression back as the first operand and goes on with what follows; names need only agree for the symbols that occur |
| Printing.RoundTrip | parser.c:344-347 | print with fewest parentheses, then parse: the same expression, no errors, exactly the rest, whatever token follows that cannot go on with an expression |
| Printing.PrintDerives | parser.c:145-347 | what is printed of an expression stands for it, on each of the nine levels |
| ProductionsSound.ExpressionSound | parser.c:145-347 | if the parser reports no error, the tokens it took stand for the expression it read, by a relation that does not mention the parser |
| ProductionsSound.LiteralExactly | parser.c:179-191 | the digit loop reads exactly the words of the relation without an error: the number modulo 2^64, if no digit makes the word smaller |
| ProductionsSound.ErrorsAreSpaced | parser.c:58-72 | a first error is counted, and another one exactly if four expected tokens have come between |
| ProductionsComplete.DerivedIsParsed | parser.c:145-347 | tokens that stand for an expression on some level are read as it, without an error, and the parser goes on after them, whatever follows that does not go on with the level |
| ProductionsComplete.ExpressionExactly | parser.c:344-347 | the parser reads an expression without an error exactly if the tokens begin with some that stand for it and that it does not go on after, and takes just these |
| ProductionsComplete.ErrorsExactly | parser.c:344-347 | an error is reported exactly if no beginning of the tokens stands for an expression that does not go on after it |
| Naming.SymbolAtAnyTime | symboltable.c:168-185 | the symbol the growing table gives a name while a text is read is the one the final table gives it |
| Printing.LiteralRoundTrip | parser.c:179-191 | the decimal digits of a word are read as the word |
| Printing.LiteralExact | parser.c:179-191 | a literal gets its value exactly if that is a word, and then no overflow is reported |
| Printing.OverflowReported | parser.c:184-189 | an overflow in the last digit is reported exactly if the wrapped value is smaller than the one before |
| Printing.OverflowMissed | parser.c:184-189 | 30000000000000000000 is read as 11553255926290448384 without an error |
| Parser.ParseContext.Match | parser.c:98-111 | takes the token if it is there, and never goes past the end of the file |
| Parser.ParseContext.SyntaxErrorToken | parser.c:58-72 | an error is counted exactly if four expected tokens have come since the last one; that every text that is no expression gets one is ErrorsExactly |
| Parser.ParseContext.ParseLiteral | parser.c:179-191 | the digit loop computes the specified value and overflow |
| Parser.ParseContext.ParsePrimary | parser.c:172-209 | ends on every list of tokens with what the grammar says, consuming something if a primary expression starts; spans are valid and nested |
| Parser.ParseContext.ParseTuple | parser.c:162-170 | the same for the members of a tuple |
| Parser.ParseContext.ParseApplication | parser.c:211-223 | the same for the loop over arguments |
| Parser.ParseContext.ParseUnary | parser.c:225-235 | the same for prefix operators |
| Parser.ParseContext.ParseFactor | parser.c:237-248 | the same for the loop over `*` and `/` |
| Parser.ParseContext.ParseTerm | parser.c:250-261 | the same for the loop over `+` and `-` |
| Parser.ParseContext.ParseComparison | parser.c:263-274 | the same for the loop over `=` |
| Parser.ParseContext.ParseFn | parser.c:276-292 | the same for functions |
| Parser.ParseContext.ParseIf | parser.c:294-308 | the same for conditionals |
| Parser.ParseContext.ParseLet | parser.c:310-342 | the same for definitions |
| Parser.ParseExpression | parser.c:349-364 | parsing ends on every list of tokens that ends with the end of the file, also with errors; the expression and number of errors are the grammar's, which ExpressionExactly and ErrorsExactly settle, and the spans of all nodes lie inside their parents' and inside the list |
| Lexer.PlacesInOrder | lexer.c:154-308 | tokens are in bounds, in order and do not overlap |
| Lexer.PlacesSpelled | lexer.c:77-141 | every token is spelled as its kind asks for and could not be longer; a keyword is one exactly if the whole word is |
| Lexer.Tiled | lexer.c:163-285 | a character outside all tokens is blank, part of a comment, or one that starts nothing |
| Lexer.CommentsAreSkipped | lexer.c:200-202 | no token has a character of a comment, wherever cutting began outside of one |
| Lexer.TokensExactly | lexer.c:163-285 | a character is part of a token only if it is neither in a comment nor blank, and always if it is also none that starts nothing |
| Lexer.ClosedExactly | lexer.c:200-202 | the last comment is closed exactly if the text does not end inside a comment |
| Lexer.LexRoundTrip | lexer.c:154-308 | cutting rendered tokens gives them back at their places, from any position |
| Lexer.RenderRoundTrip | lexer.c:154-308 | rendering well-spelled tokens with spaces between them and cutting the text gives the tokens back |
| Lexer.ErrorsUnnoticed | lexer.c:287-304 | no error is reported exactly if unexpected characters only come at the very end of the text |
| Layout.SpreadTokens | lexer.c:154-308 | cutting tokens with any blanks and closed comments between them gives the tokens, without errors, from any position |
| Layout.GapsMakeNoDifference | lexer.c:195-202 | with any mix of blanks and closed comments before, between and after its tokens a text stands for what it does with single spaces |
| Scanner.TryAddKeyword | lexer.c:77-102 | a keyword is taken exactly if it is the whole word at the position |
| Scanner.AddWord | lexer.c:205-276 | trying the keywords of the first letter finds the kind of the whole word |
| Scanner.LexBuffer | lexer.c:154-309 | tokens, line ends and errors are those of the text; it comes to an end within the text exactly if every comment is closed by a line end |
| Scanner.GetLineColumnForPosition | lexer.c:311-338 | binary search finds the number of recorded line ends before a position, and the column from the last of them |
| Scanner.NewLinesExact | lexer.c:195-198 | the recorded line ends are exactly those of the text, in order |
| Scanner.LineIsCount | lexer.c:311-338 | the line is one more than the number of line ends before the position, and there is none between the one the column counts from and the position |
| Source.SourceRoundTrip | lexer.c:154-309 | printing an expression as text, cutting and parsing it gives the expression, without errors, if the symbols that occur in it have names |
| Source.FrontExactly | millie.c:223-244 | a text is read as an expression exactly if it can be cut and its tokens begin with some that stand for the expression, which does not go on after them |
| Source.FrontNothing | millie.c:223-244 | it is turned away exactly if it cannot be cut or no beginning of its tokens stands for such an expression |
| Source.LexicalExactly | lexer.c:154-309 | it can be cut exactly if it does not end inside a comment and unexpected characters only come at its very end |
| Naming.TableRoundTrip | parser.c:126-143 | with the symbols of the table that the reading fills, printing and reading gives the expression with its symbols renumbered one to one, by 1 to the number of names |
| Naming.RenamedPrint | parser.c:145-347 | an expression with its symbols renamed prints the same under the renamed names |
| Source.ReadSource | millie.c:223-244 | the expression of a text, or in which phase it fails; FrontExactly and FrontNothing say when |

## Left out

- Semantics.EvalMonotonic: the source language has no written definition of its evaluation; the evaluator in module Semantics is strict, left to right and lexically scoped, as readme.md and the tests show it.
- Preservation.PreservesSemantics: as written (compiler.c:269, 597-600, 646) the theorem is for programs without the three events of module Safety, which can be decided before the code is run, and with the frame that runtime.c:208-209 needs.
- PlainPrograms.PlainIsCompilable: goes one way as written. A converse for all programs is out of reach of any condition that can be checked: whether a wrong register, binding or member is noticed is whether two expressions with different values in them have the same value, and with recursive functions that is undecidable. What is proved instead is what the machine computes in place of the value, for arbitrary parts (module Departures), so that the program is right exactly if those two values agree; several events in one program are not composed.
- Departures.ChoosingExact: says when a number or truth value is right; of a function or tuple only which value the machine represents instead.
- TypeSafety.TypesAreSafe: is for strict typing, because the checker does not constrain the operand of a unary operator (typecheck.c:858-861) and lets `=` compare anything (typecheck.c:802), while the machine compares words; NegationExact and EqualityExact are the exact conditions, and SensibleIsStrict a condition on the text.
- TypeChecker.CheckContext.Analyze: as written stops, with `halts` false, at the two places where typecheck.c does not come back: the containment search that meets a variable that is its own memo (typecheck.c:29, 133), and a variable that is redirected to itself (typecheck.c:757), where the C code goes on until it next follows the variable. When it stops is said of the types found for the definitions in the record `reached`, not of the program text: the order of the variables in a type is a matter of how they were unified, which only inference itself determines. Of the text alone only a sufficient condition is proved, definitions outside functions. Endless gives two definitions that do not settle, in stores that the steps of the checker allow from its first cells on; the contracts of the methods say what a store stands for and not which cell is where.
- TypeChecker.CheckContext.GetExpressionType: after a first error checking is only modelled as far as that it ends and counts errors.
- SymbolTable.SymbolTable.FindOrCreateSymbol: at the limit the C code doubles a capacity of 2^31 to 0 and writes out of bounds; the model returns `ok` false and changes nothing.
- Scanner.LexBuffer: a comment in the last line that no line end closes is followed beyond the buffer by lexer.c:201; the model returns `halts` false. A NUL character inside the text, which the keyword comparison would take for the end of a keyword, is not distinguished.
- Parser.ParseExpression: the symbol table is one function from names to symbols here; Naming proves that the growing table acts as the one it ends up as. Nothing checks that the end of the file follows the expression, in the parser or in the model: `FrontExactly` is about a beginning of the tokens. Characters of a literal that are not digits do not come from the lexer.
- Codegen.Compile: code, bindings and closure lists are sequences that grow; the reallocation of the bindings from the code buffer (compiler.c:187-189), buffer capacities, and the pointer into the function array that a reallocation would leave dangling (compiler.c:337-376) are not modelled, function indexes are used. A binding slot that was never written holds no symbol.
- Machine.Run: addresses are abstract; comparing a number with an address, arithmetic on addresses, access outside an object and writing r0 or r1 of a frame without them are faults. The checks of `Suits` are not in runtime.c; `Loop` is without them. Memory is never freed, as in the program.
- Compiler.CompileContext.CompileExpression: the cases that are one C function each are several methods where that keeps proofs small (operands, arms, scopes, captures); the order of writes is the same. The same holds for decoding and executing in Interpreter.EvaluateCode, for unifying variables and arguments and for the scope of a recursive definition in TypeChecker, and for groups, headers and keywords in Parser.
- Equality of functions and tuples exposes allocation, which the language does not define, and counts as stuck.
- `/` and unary plus are parsed and reported by the compiler as errors (compiler.c:500-502, 528-530).
- Deleted entries of the symbol table: nothing deletes, the invariant of the table says so, and the branch at symboltable.c:81-84 is left out.
- cityhash.c: the hash is any function of the key, cut to 31 bits and never zero.
- Error messages and their positions, type formatting, value formatting, tracing, dumps, reading files and arguments: user interface; errors are counts.
- platform.c's arena and array list and string.c's reference counts: sequences and values.
