# rust-lambda: compiler and SECD machine, modelled in Dafny

rust-lambda is a small call-by-value functional language with:
- 32-bit integers and booleans;
- the unary operators `-` and `!`;
- twelve binary operators;
- functions `Fun(f, x, m)` with parameter `x` whose body can call the function itself as `f` (a surface lambda is one with an empty self-name, a recursive `let` declaration names it), application, `let x = m in n`, and `if`.

A program runs in two stages:
1. `Term::compile` turns it into bytecode (`CMD`). Variables become de Bruijn positions found in a compile-time name list.
2. `Term::secd` executes that bytecode on an SECD-style machine. The machine has:
   - a value stack;
   - an environment of values, innermost first;
   - a code sequence.

   Calls push a continuation closure. That closure holds the caller's pending code and environment, and RETURN resumes it.

The repository holds two copies of the machine:
- `src/eval.rs` keeps the top of the stack at the front of a persistent vector.
- `src/secd.rs` keeps it at the end of a `Vec`.

The model covers both copies with one machine, parameterised by a `Discipline`, and proves that the two copies compute the same thing.

Modules:
- `Faults`: the faults a run can raise, and a `Result` type. Every `panic!`, failed `unwrap()` and arithmetic overflow of the source becomes a named fault.
- `Ast`: terms and operators, the `i32` range, and the free variables of a term.
- `Arith`: checked 32-bit arithmetic with the debug-build semantics of Rust's `i32` operators. This includes division truncating toward zero and the `MIN / -1` and `-MIN` overflows.
- `Bytecode`: the instruction set, and the translation of operators into instructions.
- `Compiler`: `Term::compile`. An unbound name is an error (the `unwrap()` on `index_of`).
- `Machine`: the machine step by step, the loop of `Term::secd` under a step budget, and `Term::run`.
- `Disciplines`: the front-of-vector machine and the end-of-vector machine agree step for step, under stack reversal.
- `Reference`: an independent big-step evaluator over named bindings. It states what a term means. It has no counterpart in the repository, which runs programs only through the machine, so it has no rows below; `Correctness` relates everything to it.
- `Correctness`: compiler correctness against that evaluator. Running the compiled code of a term, with any pending stack and code, pushes a value representing the term's value and leaves the environment as it found it; or it raises the same fault. The reference evaluator counts calls with fuel so that it is total. When it runs out of fuel, the machine is still running, without a fault, after at least that many steps. So a program the evaluator never finishes keeps the machine running forever. This holds for every term, including closures and recursion.

## Model

| member | source | states |
|---|---|---|
| Arith.Checked | src/eval.rs:131-162 | an `i32` result exists exactly when the mathematical value lies in [-2^31, 2^31-1]; otherwise the operation overflows |
| Arith.Add | src/eval.rs:135 | `i + j` succeeds exactly when the sum fits in `i32`, yields the sum, and otherwise overflows |
| Arith.Sub | src/eval.rs:143 | `i - j` succeeds exactly when the difference fits in `i32`, yields it, and otherwise overflows |
| Arith.Mul | src/eval.rs:151 | `i * j` succeeds exactly when the product fits in `i32`, yields it, and otherwise overflows |
| Arith.Neg | src/eval.rs:234 | `-i` overflows exactly for `i32::MIN`, and otherwise yields the additive inverse |
| Arith.TruncDiv | src/eval.rs:159 | Rust's integer quotient: the remainder `a - b*q` is smaller than the divisor in magnitude and has the sign of the dividend; the quotient is no larger than the dividend in magnitude |
| Arith.Div | src/eval.rs:155-162 | division by zero is its own fault; `MIN / -1` is the only overflow; otherwise the result is the truncating quotient |
| Bytecode.Op1Cmd | src/eval.rs:44-50 | each unary operator maps to a unary instruction, and that instruction maps back to the operator |
| Bytecode.Op2Cmd | src/eval.rs:53-69 | each binary operator maps to a binary instruction, and that instruction maps back to the operator |
| Bytecode.OperatorsBijective | src/eval.rs:44-69 | every unary or binary instruction is the image of exactly one operator, so the translation is a bijection |
| Compiler.Resolve | src/eval.rs:82 | a name resolves exactly when it is in the name list; the index is its first (innermost) occurrence; otherwise the error names the unbound variable |
| Compiler.Compile | src/eval.rs:73-118 | compilation succeeds exactly when every free variable of the term is in the name list; a failure names a free variable missing from the list |
| Compiler.CompileVar | src/eval.rs:81-84 | a bound variable compiles to the single ACCESS of the position of its innermost binding |
| Compiler.CompileUnbound | src/eval.rs:82 | a variable missing from the name list does not compile; the error names it |
| Compiler.CompileOp1 | src/eval.rs:85-88 | a unary term compiles to its operand's code followed by the operator's instruction |
| Compiler.CompileOp2 | src/eval.rs:89-93 | a binary term compiles to the left operand's code, then the right's, then the operator's instruction (no short-circuit branch) |
| Compiler.CompileFun | src/eval.rs:94-99 | a function compiles to one CLOSURE whose code is the body compiled under `self :: param :: names` and ends with RETURN |
| Compiler.CompileApp | src/eval.rs:100-104 | an application compiles to the function's code, then the argument's, then APPLY |
| Compiler.CompileLet | src/eval.rs:105-110 | `let x = m in n` compiles to `m`'s code, LET, `n`'s code under `x :: names`, then ENDLET |
| Compiler.CompileIfte | src/eval.rs:111-116 | a conditional compiles to the condition's code followed by one IFTE holding both compiled branches |
| Machine.Push | src/eval.rs:129-130 | pushing grows the stack by one, and popping right after returns the pushed value and the old stack |
| Machine.Pop | src/eval.rs:132-133 | popping fails exactly on the empty stack (the `unwrap()` fault) and otherwise removes one entry |
| Machine.PopThenPush | src/eval.rs:132-135 | pushing back what was popped restores the stack |
| Machine.Binary | src/eval.rs:131-230 | a binary instruction faults with a type mismatch exactly when its operands are not two integers (arithmetic and comparisons) or two booleans (AND, OR); otherwise it yields `left op right`: the exact sum, difference, product or truncated quotient, the comparison of the left operand against the right, or the conjunction or disjunction; with operands of the right type, ADD, SUB and MUL succeed exactly when the exact result fits in 32 bits, DIV faults with division by zero exactly on a zero divisor and succeeds exactly when the divisor is nonzero and the case is not `i32::MIN / -1`, and every comparison, AND and OR succeeds; the only other faults are division by zero and overflow |
| Machine.ArithBinary | src/eval.rs:131-166 | ADD, SUB and MUL on two integers succeed exactly when the exact result fits in 32 bits and then yield it; DIV faults with division by zero exactly on a zero divisor, overflows only on `i32::MIN / -1`, and otherwise yields the truncated quotient |
| Machine.Unary | src/eval.rs:231-244 | NEG needs an integer and yields its negation, NOT needs a boolean and yields its complement; the only other fault is negating `i32::MIN` |
| Machine.StepStack | src/eval.rs:128-287 | every instruction changes the stack size by its fixed effect, and only LET, ENDLET, APPLY and RETURN change the environment |
| Machine.StepFlow | src/eval.rs:127-289 | straight-line instructions continue with the rest of the code; IFTE continues with one branch in front of it; every fault is a run-time fault |
| Machine.UnaryInstr | src/eval.rs:231-244 | NEG and NOT replace the top of the stack by the operator's image, or raise the operator's fault |
| Machine.BinaryInstr | src/eval.rs:131-230 | a binary instruction pops the right operand, then the left, and pushes `left op right`, or raises the operator's fault |
| Machine.AccessInstr | src/eval.rs:245 | ACCESS(i) pushes the i-th environment entry; an index past the end is a fault |
| Machine.ClosureInstr | src/eval.rs:246 | CLOSURE(c) pushes a closure of `c` over the environment current when it executes, and leaves that environment and the pending code as they were |
| Machine.LetInstr | src/eval.rs:255-261 | LET moves the top of the stack to the front of the environment, and ENDLET removes it again; ENDLET on an empty environment changes nothing |
| Machine.IfteInstr | src/eval.rs:247-254 | IFTE on a boolean puts exactly the chosen branch in front of the pending code; on any other value it faults |
| Machine.ApplyNonClosure | src/eval.rs:262-275 | APPLY faults when the value under the argument is not a closure |
| Machine.ReturnNonClosure | src/eval.rs:276-287 | RETURN faults when the entry under the result is not a continuation closure |
| Machine.CallReturn | src/eval.rs:262-287 | APPLY saves the pending code and environment as a continuation and enters the body with `self` and the argument bound; RETURN puts the result in place of the continuation and resumes exactly the saved code and environment |
| Machine.CallNetEffect | src/eval.rs:262-287 | a whole call, seen from the caller, replaces function and argument by the callee's result and restores the caller's environment and code |
| Machine.Finish | src/eval.rs:292 | the answer is the top of the final stack; an empty final stack is the empty-stack fault; a fault during the loop is the answer |
| Machine.Secd | src/eval.rs:125-293 | the loop, run under a step budget, computes what the step relation iterated from the start state gives |
| Machine.Evaluate | src/eval.rs:120-123 | a term with a free variable never runs and reports one of its unbound names |
| Machine.Run | src/eval.rs:120-123 | `run` compiles under no names and starts the machine from an empty stack and environment; a compile error is the answer; its answer is `Evaluate`'s, so the end-to-end lemmas apply to it |
| Machine.ExecuteSettles | src/eval.rs:126-291 | once the code is exhausted or a fault has stopped the loop, a larger step budget gives the same answer |
| Machine.ExecuteBefore | src/eval.rs:126-291 | under any budget, a loop that stops within some number of steps ends the same way or out of fuel |
| Machine.RunningBefore | src/eval.rs:126-291 | a loop still running after some number of steps was running after every smaller number |
| Disciplines.PushFlip | src/secd.rs:128 | pushing at the end of the vector is pushing at the front of the reversed vector |
| Disciplines.PopFlip | src/secd.rs:131-132 | popping from the end of the vector is popping from the front of the reversed vector |
| Disciplines.StepAgrees | src/secd.rs:125-282 | one step of the end-of-vector machine is one step of the front-of-vector machine under stack reversal, faults included |
| Disciplines.IterateAgrees | src/secd.rs:126-283 | any number of steps of the two machines agree under stack reversal |
| Disciplines.ExecuteAgrees | src/secd.rs:285 | both machines give the same answer from corresponding states |
| Disciplines.EvaluateAgrees | src/secd.rs:120-123 | `run` in the two files gives the same answer for every term |
| Correctness.LookupResolve | src/eval.rs:81-84 | the position the compiler assigns to a name holds, at run time, the value the name denotes |
| Correctness.Op1Agrees | src/eval.rs:231-244 | the unary instructions compute the unary operators of the language, faults included |
| Correctness.Op2Agrees | src/eval.rs:131-230 | the binary instructions compute the binary operators of the language, faults included |
| Correctness.Correct | src/eval.rs:73-293 | compiled code, run from any stack and pending code, pushes exactly one value representing the term's meaning, leaves the environment unchanged and reaches the pending code; or it raises the same fault; or, when the reference evaluator runs out of fuel, it is still running without a fault after at least that many steps |
| Correctness.CorrectVar | src/eval.rs:81-84 | a variable's ACCESS pushes the representation of the value it is bound to |
| Correctness.CorrectOp2 | src/eval.rs:89-93 | a binary term's code evaluates the left operand, then the right, then combines them, as the language defines |
| Correctness.CorrectLet | src/eval.rs:105-110 | `let` code binds the value for the body and restores the environment afterwards |
| Correctness.CorrectIfte | src/eval.rs:111-116 | conditional code runs exactly the branch the condition selects |
| Correctness.CorrectApp | src/eval.rs:100-104 | application code calls the closure with itself and the argument bound, and returns to the caller with one result |
| Correctness.RunAgrees | src/eval.rs:120-123 | a closed term compiles; with a large enough step budget `run` answers with a value representing its meaning or with the same fault; when the reference evaluator runs out of fuel, the machine is still running after at least that many steps |
| Correctness.Diverges | src/eval.rs:120-123 | a closed term whose reference evaluation runs out of fuel at every budget compiles, and under every step budget the machine is still running without a fault, so `run` ends out of fuel |
| Correctness.LoopDiverges | src/eval.rs:262-275 | under every step budget, running `App(Fun("f", "x", App(Var("f"), Var("x"))), Int(0))` ends out of fuel, never with a value or a fault |
| Correctness.NoMachineFault | src/eval.rs:120-293 | no closed term, under any step budget, ends in an empty-stack, environment-index or bad-continuation fault |
| Correctness.NoShortCircuit | src/eval.rs:89-93 | `&&` and `||` evaluate both operands: a fault in the right operand surfaces even when the left operand already decides the result |

## Left out

- `src/parse.rs` and `src/main.rs` (parsing and the command line) are not part of this model; a term is given as a datatype.
- Panics are modelled as named faults. Their message strings are not modelled: in `src/eval.rs`, DIV, the eight binary cases after it (LTE through OR) and both unary cases all say "bad DIV".
- Arith.Add, Arith.Sub, Arith.Mul, Arith.Neg model the debug build, where `i32` overflow panics. A release build wraps around instead, and that behaviour is not modelled.
- Machine.Secd and Machine.Run take a step budget. The source loop is unbounded, so `OutOfFuel` never arises in the source; it only marks a budget that was too small. Machine.ExecuteSettles shows that a larger budget changes nothing once the run has finished.
- Sharing and cloning of `im::Vector` and `Rc` are not modelled; values are immutable Dafny values.
- `#[derive(Debug)]` output is not modelled.
- The compiler in `src/secd.rs` is the same as the one in `src/eval.rs` up to the instruction type's name, so it is modelled once.
- The language's design asks for exactly one value to remain on the stack at the end. The code only pops the top and ignores the rest, and the model follows the code. Correctness.Correct shows that the compiled code of a term leaves exactly one value above the stack it started from, so a run of a closed term that produces a value ends with exactly one value anyway.
- EQ and NEQ accept only integers, as the code is written; comparing two booleans is a type mismatch.
