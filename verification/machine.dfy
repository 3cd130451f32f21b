/** The SECD-style machine `Term::secd`: a loop over (stack, env, code).

    The two copies of the machine in the source differ only in where the
    top of the operand stack sits: src/eval.rs keeps it at the front of an
    `im::Vector` (`push_front`/`pop_front`), src/secd.rs at the end of a
    `Vec` (`push`/`pop`). `Discipline` names the two, and every stack
    operation below goes through `Push` and `Pop`, so one definition
    models both copies. */
module Machine {
  import opened Faults
  import Ast
  import opened Bytecode
  import Arith
  import Compiler

  /** A run-time value. A `Clo` is either a function value (its code and
      captured environment) or, on the operand stack, a saved continuation
      (the caller's pending code and environment). */
  datatype Value = Int(i: Ast.Int32) | Bool(b: bool) | Clo(code: seq<Cmd>, env: seq<Value>)

  /** Machine state; `env[0]` is the innermost binding. */
  datatype State = State(stack: seq<Value>, env: seq<Value>, code: seq<Cmd>)

  datatype Discipline = TopAtFront | TopAtEnd

  function Push(d: Discipline, st: seq<Value>, v: Value): (r: seq<Value>)
    ensures |r| == |st| + 1
    ensures Pop(d, r) == Ok((v, st))
  {
    if d.TopAtFront? then [v] + st else st + [v]
  }

  /** Removes the top entry; `unwrap` on an empty stack is the empty-stack fault. */
  function Pop(d: Discipline, st: seq<Value>): (r: Result<(Value, seq<Value>)>)
    ensures r.Err? <==> st == []
    ensures r.Err? ==> r.error == EmptyStack
    ensures r.Ok? ==> |r.value.1| == |st| - 1
  {
    if st == [] then Err(EmptyStack)
    else if d.TopAtFront? then Ok((st[0], st[1..]))
    else Ok((st[|st| - 1], st[..|st| - 1]))
  }

  /** Popping then pushing back what was popped restores the stack. */
  lemma PopThenPush(d: Discipline, st: seq<Value>)
    requires st != []
    ensures Push(d, Pop(d, st).value.1, Pop(d, st).value.0) == st
  {
  }

  /** The operand kinds a two-operand instruction accepts: two booleans for
      AND and OR, two integers for the other ten. */
  predicate OperandsFit(c: Cmd, left: Value, right: Value)
    requires c.IsBinary()
  {
    if c.And? || c.Or? then left.Bool? && right.Bool? else left.Int? && right.Int?
  }

  /** The arithmetic instructions; the other binary ones produce a boolean. */
  predicate IsArith(c: Cmd) {
    c.Add? || c.Sub? || c.Mul? || c.Div?
  }

  /** An integer outcome as a machine value, a fault passed through. */
  function IntResult(r: Result<Ast.Int32>): (v: Result<Value>)
    ensures r.Ok? ==> v == Ok(Int(r.value))
    ensures r.Err? ==> v == Err(r.error)
  {
    var n :- r;
    Ok(Int(n))
  }

  /** What ADD, SUB, MUL or DIV pushes for two integer operands. */
  function ArithBinary(c: Cmd, i: Ast.Int32, j: Ast.Int32): (r: Result<Value>)
    requires IsArith(c)
    ensures r.Ok? ==> r.value.Int?
    ensures r.Err? ==> (c.Div? && r.error == DivisionByZero) || r.error == ArithmeticOverflow
    ensures c.Add? ==> (r.Ok? <==> Ast.MinInt32 <= i as int + j as int <= Ast.MaxInt32)
                       && (r.Ok? ==> r.value.i as int == i as int + j as int)
    ensures c.Sub? ==> (r.Ok? <==> Ast.MinInt32 <= i as int - j as int <= Ast.MaxInt32)
                       && (r.Ok? ==> r.value.i as int == i as int - j as int)
    ensures c.Mul? ==> (r.Ok? <==> Ast.MinInt32 <= i as int * j as int <= Ast.MaxInt32)
                       && (r.Ok? ==> r.value.i as int == i as int * j as int)
    ensures c.Div? ==> (r == Err(DivisionByZero) <==> j == 0)
                       && (r.Ok? <==> j != 0 && !(i as int == Ast.MinInt32 && j == -1))
                       && (r.Ok? ==> r.value.i as int == Arith.TruncDiv(i as int, j as int))
  {
    if c.Add? then IntResult(Arith.Add(i, j))
    else if c.Sub? then IntResult(Arith.Sub(i, j))
    else if c.Mul? then IntResult(Arith.Mul(i, j))
    else IntResult(Arith.Div(i, j))
  }

  /** What a comparison, AND or OR pushes for operands of the right type. */
  function Test(c: Cmd, left: Value, right: Value): (b: bool)
    requires c.IsBinary() && !IsArith(c) && OperandsFit(c, left, right)
    ensures c.Lte? ==> b == (left.i <= right.i)
    ensures c.Gte? ==> b == (left.i >= right.i)
    ensures c.Lt? ==> b == (left.i < right.i)
    ensures c.Gt? ==> b == (left.i > right.i)
    ensures c.Eq? ==> b == (left.i == right.i)
    ensures c.Neq? ==> b == (left.i != right.i)
    ensures c.And? ==> b == (left.b && right.b)
    ensures c.Or? ==> b == (left.b || right.b)
  {
    match c
    case Lte => left.i <= right.i
    case Gte => left.i >= right.i
    case Lt => left.i < right.i
    case Gt => left.i > right.i
    case Eq => left.i == right.i
    case Neq => left.i != right.i
    case And => left.b && right.b
    case Or => left.b || right.b
  }

  /** What a two-operand instruction pushes, given its left operand (the
      one pushed first, popped second) and its right operand. */
  function Binary(c: Cmd, left: Value, right: Value): (r: Result<Value>)
    requires c.IsBinary()
    ensures r == Err(TypeMismatch) <==> !OperandsFit(c, left, right)
    ensures r.Ok? ==> (r.value.Int? <==> IsArith(c)) && (r.value.Bool? <==> !IsArith(c))
    ensures r.Err? && r.error != TypeMismatch ==>
              (c.Div? && r.error == DivisionByZero) || (IsArith(c) && r.error == ArithmeticOverflow)
    ensures r.Ok? && c.Add? ==> r.value.i as int == left.i as int + right.i as int
    ensures r.Ok? && c.Sub? ==> r.value.i as int == left.i as int - right.i as int
    ensures r.Ok? && c.Mul? ==> r.value.i as int == left.i as int * right.i as int
    ensures r.Ok? && c.Div? ==> right.i != 0 && r.value.i as int == Arith.TruncDiv(left.i as int, right.i as int)
    ensures r.Ok? && c.Lte? ==> r.value.b == (left.i <= right.i)
    ensures r.Ok? && c.Gte? ==> r.value.b == (left.i >= right.i)
    ensures r.Ok? && c.Lt? ==> r.value.b == (left.i < right.i)
    ensures r.Ok? && c.Gt? ==> r.value.b == (left.i > right.i)
    ensures r.Ok? && c.Eq? ==> r.value.b == (left.i == right.i)
    ensures r.Ok? && c.Neq? ==> r.value.b == (left.i != right.i)
    ensures r.Ok? && c.And? ==> r.value.b == (left.b && right.b)
    ensures r.Ok? && c.Or? ==> r.value.b == (left.b || right.b)
    ensures OperandsFit(c, left, right) && !IsArith(c) ==> r.Ok?
    ensures OperandsFit(c, left, right) && c.Add? ==>
              (r.Ok? <==> Ast.MinInt32 <= left.i as int + right.i as int <= Ast.MaxInt32)
    ensures OperandsFit(c, left, right) && c.Sub? ==>
              (r.Ok? <==> Ast.MinInt32 <= left.i as int - right.i as int <= Ast.MaxInt32)
    ensures OperandsFit(c, left, right) && c.Mul? ==>
              (r.Ok? <==> Ast.MinInt32 <= left.i as int * right.i as int <= Ast.MaxInt32)
    ensures OperandsFit(c, left, right) && c.Div? ==>
              && (r == Err(DivisionByZero) <==> right.i == 0)
              && (r.Ok? <==> right.i != 0 && !(left.i as int == Ast.MinInt32 && right.i == -1))
  {
    if !OperandsFit(c, left, right) then Err(TypeMismatch)
    else if IsArith(c) then ArithBinary(c, left.i, right.i)
    else Ok(Bool(Test(c, left, right)))
  }

  /** What NEG or NOT pushes in place of its operand. */
  function Unary(c: Cmd, v: Value): (r: Result<Value>)
    requires c.IsUnary()
    ensures r == Err(TypeMismatch) <==> (c.Neg? && !v.Int?) || (c.Not? && !v.Bool?)
    ensures r.Ok? && c.Neg? ==> r.value.Int? && r.value.i as int == -(v.i as int)
    ensures r.Ok? && c.Not? ==> r.value == Bool(!v.b)
    ensures r.Err? && r.error != TypeMismatch ==> c.Neg? && v == Int(Ast.MinInt32) && r.error == ArithmeticOverflow
  {
    if c.Neg? then
      if v.Int? then IntResult(Arith.Neg(v.i)) else Err(TypeMismatch)
    else
      if v.Bool? then Ok(Bool(!v.b)) else Err(TypeMismatch)
  }

  /** Instructions that may change the environment. */
  predicate Rebinds(c: Cmd) {
    c.Let? || c.EndLet? || c.Apply? || c.Return?
  }

  /** Instructions after which execution simply continues with the rest of the code. */
  predicate Sequential(c: Cmd) {
    !c.Ifte? && !c.Apply? && !c.Return?
  }

  /** One iteration of the loop body of `Term::secd`: pop the next
      instruction and execute it. */
  function Step(d: Discipline, s: State): Result<State>
    requires s.code != []
  {
    var c, k := s.code[0], s.code[1..];
    match c
    case PushInt(i) => Ok(State(Push(d, s.stack, Int(i)), s.env, k))
    case PushBool(b) => Ok(State(Push(d, s.stack, Bool(b)), s.env, k))
    case Access(i) =>
      if i < |s.env| then Ok(State(Push(d, s.stack, s.env[i]), s.env, k))
      else Err(EnvIndexOutOfRange)
    case Closure(body) => Ok(State(Push(d, s.stack, Clo(body, s.env)), s.env, k))
    case Ifte(c1, c2) => StepIfte(d, s.stack, s.env, c1, c2, k)
    case Let => StepLet(d, s.stack, s.env, k)
    case EndLet =>
      // `pop_front` on an empty environment returns `None`, which is ignored
      Ok(State(s.stack, if s.env == [] then [] else s.env[1..], k))
    case Apply => StepApply(d, s.stack, s.env, k)
    case Return => StepReturn(d, s.stack, s.env, k)
    case Neg => StepUnary(d, c, s.stack, s.env, k)
    case Not => StepUnary(d, c, s.stack, s.env, k)
    case _ => StepBinary(d, c, s.stack, s.env, k)
  }

  /** Every instruction changes the stack size by its declared effect, and
      only LET, ENDLET, APPLY and RETURN touch the environment. */
  lemma StepStack(d: Discipline, s: State)
    requires s.code != []
    ensures var r := Step(d, s);
      && (r.Ok? ==> |r.value.stack| == |s.stack| + StackEffect(s.code[0]))
      && (r.Ok? && !Rebinds(s.code[0]) ==> r.value.env == s.env)
  {
  }

  /** Control flow: straight-line instructions continue with the rest of
      the code, IFTE with exactly one branch in front of it; every fault
      is a run-time fault. */
  lemma StepFlow(d: Discipline, s: State)
    requires s.code != []
    ensures var r := Step(d, s);
      && (r.Ok? && Sequential(s.code[0]) ==> r.value.code == s.code[1..])
      && (r.Ok? && s.code[0].Ifte? ==>
            r.value.code == s.code[0].thenCode + s.code[1..] || r.value.code == s.code[0].elseCode + s.code[1..])
      && (r.Err? ==> r.error.IsRuntime())
  {
  }

  /** IFTE: pop a boolean and put the chosen branch in front of the pending code `k`. */
  function StepIfte(d: Discipline, st: seq<Value>, env: seq<Value>, c1: seq<Cmd>, c2: seq<Cmd>, k: seq<Cmd>)
    : (r: Result<State>)
    ensures r.Ok? ==> |r.value.stack| == |st| - 1 && r.value.env == env
    ensures r.Ok? ==> r.value.code == c1 + k || r.value.code == c2 + k
    ensures r.Err? ==> r.error.IsRuntime()
  {
    var p :- Pop(d, st);
    match p.0
    case Bool(b) => Ok(State(p.1, env, if b then c1 + k else c2 + k))
    case _ => Err(TypeMismatch)
  }

  /** LET: move the top of the stack to the front of the environment. */
  function StepLet(d: Discipline, st: seq<Value>, env: seq<Value>, k: seq<Cmd>): (r: Result<State>)
    ensures r.Ok? ==> |r.value.stack| == |st| - 1 && r.value.code == k
    ensures r.Err? ==> r.error.IsRuntime()
  {
    var p :- Pop(d, st);
    Ok(State(p.1, [p.0] + env, k))
  }

  /** APPLY: pop the argument, then the function; save the caller's pending
      code and environment as a continuation and enter the callee's code
      in its captured environment extended by itself and the argument. */
  function StepApply(d: Discipline, st: seq<Value>, env: seq<Value>, k: seq<Cmd>): (r: Result<State>)
    ensures r.Ok? ==> |r.value.stack| == |st| - 1
    ensures r.Err? ==> r.error.IsRuntime()
  {
    var p1 :- Pop(d, st);
    var p2 :- Pop(d, p1.1);
    var arg, fn := p1.0, p2.0;
    if fn.Clo? then Ok(State(Push(d, p2.1, Clo(k, env)), [fn, arg] + fn.env, fn.code))
    else Err(NotCallable)
  }

  /** RETURN: pop the result, then the continuation; resume the
      continuation's code and environment with the result pushed. */
  function StepReturn(d: Discipline, st: seq<Value>, env: seq<Value>, k: seq<Cmd>): (r: Result<State>)
    ensures r.Ok? ==> |r.value.stack| == |st| - 1
    ensures r.Err? ==> r.error.IsRuntime()
  {
    var p1 :- Pop(d, st);
    var p2 :- Pop(d, p1.1);
    var result, cont := p1.0, p2.0;
    if cont.Clo? then Ok(State(Push(d, p2.1, result), cont.env, cont.code))
    else Err(BadContinuation)
  }

  function StepUnary(d: Discipline, c: Cmd, st: seq<Value>, env: seq<Value>, k: seq<Cmd>): (r: Result<State>)
    requires c.IsUnary()
    ensures r.Ok? ==> |r.value.stack| == |st| && r.value.env == env && r.value.code == k
    ensures r.Err? ==> r.error.IsRuntime()
  {
    var p :- Pop(d, st);
    var w :- Unary(c, p.0);
    Ok(State(Push(d, p.1, w), env, k))
  }

  /** A binary instruction pops the right operand first, then the left. */
  function StepBinary(d: Discipline, c: Cmd, st: seq<Value>, env: seq<Value>, k: seq<Cmd>): (r: Result<State>)
    requires c.IsBinary()
    ensures r.Ok? ==> |r.value.stack| == |st| - 1 && r.value.env == env && r.value.code == k
    ensures r.Err? ==> r.error.IsRuntime()
  {
    var right :- Pop(d, st);
    var left :- Pop(d, right.1);
    var w :- Binary(c, left.0, right.0);
    Ok(State(Push(d, left.1, w), env, k))
  }

  /** The state after `n` loop iterations, or the fault that stopped the
      loop; a state with no code left is final and stays put. */
  function Iterate(d: Discipline, s: State, n: nat): Result<State>
    decreases n, 1
  {
    if n == 0 || s.code == [] then Ok(s)
    else Continue(d, Step(d, s), n - 1)
  }

  /** Runs `b` more steps after a step or a run that produced `r`, unless that one faulted. */
  function Continue(d: Discipline, r: Result<State>, b: nat): Result<State>
    decreases b, 2
  {
    match r
    case Ok(s) => Iterate(d, s, b)
    case Err(e) => Err(e)
  }

  /** Running `a + b` steps is running `a` steps and then `b` more. */
  lemma {:induction false} IterateSplit(d: Discipline, s: State, a: nat, b: nat)
    ensures Iterate(d, s, a + b) == Continue(d, Iterate(d, s, a), b)
    decreases a
  {
    if a == 0 || s.code == [] {
      if s.code == [] {
        assert Iterate(d, s, b) == Ok(s);
      }
    } else {
      match Step(d, s)
      case Err(_) =>
      case Ok(s') =>
        IterateSplit(d, s', a - 1, b);
        assert a + b - 1 == (a - 1) + b;
    }
  }

  /** After the loop: the top of the stack is the answer (`stack.pop().unwrap()`);
      code still pending means the step budget ran out. */
  function Finish(d: Discipline, r: Result<State>): (v: Result<Value>)
    ensures r.Err? ==> v == Err(r.error)
    ensures r.Ok? && r.value.code != [] ==> v == Err(OutOfFuel)
    ensures r.Ok? && r.value.code == [] ==> (v.Ok? <==> r.value.stack != [])
    ensures r.Ok? && r.value.code == [] && r.value.stack == [] ==> v == Err(EmptyStack)
    ensures r.Ok? && r.value.code == [] && v.Ok? ==> Pop(d, r.value.stack).value.0 == v.value
  {
    var s :- r;
    if s.code != [] then Err(OutOfFuel)
    else
      var p :- Pop(d, s.stack);
      Ok(p.0)
  }

  /** The result of running the machine from `s` for at most `fuel` steps. */
  function Execute(d: Discipline, s: State, fuel: nat): Result<Value> {
    Finish(d, Iterate(d, s, fuel))
  }

  /** `Term::secd`, with a step budget: the loop pops the next instruction
      until none is left. */
  method Secd(d: Discipline, stack: seq<Value>, env: seq<Value>, code: seq<Cmd>, fuel: nat)
    returns (r: Result<Value>)
    ensures r == Execute(d, State(stack, env, code), fuel)
  {
    var s := State(stack, env, code);
    var left := fuel;
    while s.code != [] && left > 0
      invariant Iterate(d, s, left) == Iterate(d, State(stack, env, code), fuel)
      decreases left
    {
      var next := Step(d, s);
      if next.Err? {
        return Err(next.error);
      }
      s := next.value;
      left := left - 1;
    }
    r := Finish(d, Ok(s));
  }

  /** Compile under no names, then run from an empty stack and environment. */
  function Evaluate(d: Discipline, t: Ast.Term, fuel: nat): (r: Result<Value>)
    ensures Ast.FreeVars(t) != {} ==> r.Err? && r.error.UnboundVariable? && r.error.name in Ast.FreeVars(t)
  {
    var code :- Compiler.Compile(t, []);
    Execute(d, State([], [], code), fuel)
  }

  /** `Term::run`. */
  method Run(d: Discipline, t: Ast.Term, fuel: nat) returns (r: Result<Value>)
    ensures Compiler.Compile(t, []).Err? ==> r == Err(Compiler.Compile(t, []).error)
    ensures Compiler.Compile(t, []).Ok? ==> r == Execute(d, State([], [], Compiler.Compile(t, []).value), fuel)
    ensures r == Evaluate(d, t, fuel)
  {
    var compiled := Compiler.Compile(t, []);
    if compiled.Err? {
      return Err(compiled.error);
    }
    r := Secd(d, [], [], compiled.value, fuel);
  }

  /** Once the code is used up or a fault has stopped the loop, a larger
      step budget gives the same answer. */
  lemma ExecuteSettles(d: Discipline, s: State, n: nat, m: nat)
    requires Iterate(d, s, n).Err? || Iterate(d, s, n).value.code == []
    ensures Execute(d, s, n + m) == Execute(d, s, n)
  {
    IterateSplit(d, s, n, m);
  }

  /** Under a budget smaller or larger than one after which the loop has
      stopped, it ends the same way or out of fuel. */
  lemma ExecuteBefore(d: Discipline, s: State, m: nat, n: nat)
    requires !Running(Iterate(d, s, n))
    ensures Execute(d, s, m) == Execute(d, s, n) || Execute(d, s, m) == Err(OutOfFuel)
  {
    if m >= n {
      ExecuteSettles(d, s, n, m - n);
    } else if !Running(Iterate(d, s, m)) {
      ExecuteSettles(d, s, m, n - m);
    }
  }

  /** The call/return protocol: APPLY replaces the argument and the function
      with a continuation holding the caller's pending code and environment,
      and enters the callee's body with `self` at position 0 and the argument
      at position 1; RETURN swaps the continuation for the result and resumes
      the caller exactly where it left off. */
  lemma CallReturn(d: Discipline, st: seq<Value>, env: seq<Value>, k: seq<Cmd>,
                   fn: Value, arg: Value, result: Value, calleeEnv: seq<Value>, rest: seq<Cmd>)
    requires fn.Clo?
    ensures Step(d, State(Push(d, Push(d, st, fn), arg), env, [Apply] + k))
         == Ok(State(Push(d, st, Clo(k, env)), [fn, arg] + fn.env, fn.code))
    ensures Step(d, State(Push(d, Push(d, st, Clo(k, env)), result), calleeEnv, [Return] + rest))
         == Ok(State(Push(d, st, result), env, k))
  {
    assert ([Apply] + k)[1..] == k;
  }

  /** One more step after a run that reached `s'`. */
  lemma StepAfter(d: Discipline, s: State, a: nat, s': State)
    requires Iterate(d, s, a) == Ok(s') && s'.code != []
    ensures Iterate(d, s, a + 1) == Step(d, s')
  {
    IterateSplit(d, s, a, 1);
  }

  /** NEG and NOT replace the top of the stack by its image, or fault. */
  lemma UnaryInstr(d: Discipline, c: Cmd, st: seq<Value>, env: seq<Value>, v: Value, k: seq<Cmd>)
    requires c.IsUnary()
    ensures Unary(c, v).Ok? ==>
      Step(d, State(Push(d, st, v), env, [c] + k)) == Ok(State(Push(d, st, Unary(c, v).value), env, k))
    ensures Unary(c, v).Err? ==>
      Step(d, State(Push(d, st, v), env, [c] + k)) == Err(Unary(c, v).error)
  {
    assert ([c] + k)[1..] == k;
  }

  /** A binary instruction takes the right operand from the top and the
      left one from beneath it, and pushes `left op right`, or faults. */
  lemma BinaryInstr(d: Discipline, c: Cmd, st: seq<Value>, env: seq<Value>, left: Value, right: Value, k: seq<Cmd>)
    requires c.IsBinary()
    ensures Binary(c, left, right).Ok? ==>
      Step(d, State(Push(d, Push(d, st, left), right), env, [c] + k))
        == Ok(State(Push(d, st, Binary(c, left, right).value), env, k))
    ensures Binary(c, left, right).Err? ==>
      Step(d, State(Push(d, Push(d, st, left), right), env, [c] + k)) == Err(Binary(c, left, right).error)
  {
    var st2 := Push(d, Push(d, st, left), right);
    assert ([c] + k)[1..] == k;
    assert Step(d, State(st2, env, [c] + k)) == StepBinary(d, c, st2, env, k);
  }

  /** ACCESS(i) pushes the `i`-th entry of the environment, counting from
      the innermost binding; an index past the end is a fault. */
  lemma AccessInstr(d: Discipline, st: seq<Value>, env: seq<Value>, i: nat, k: seq<Cmd>)
    ensures i < |env| ==> Step(d, State(st, env, [Access(i)] + k)) == Ok(State(Push(d, st, env[i]), env, k))
    ensures i >= |env| ==> Step(d, State(st, env, [Access(i)] + k)) == Err(EnvIndexOutOfRange)
  {
    assert ([Access(i)] + k)[1..] == k;
  }

  /** CLOSURE captures the environment current when it executes. */
  lemma ClosureInstr(d: Discipline, st: seq<Value>, env: seq<Value>, body: seq<Cmd>, k: seq<Cmd>)
    ensures Step(d, State(st, env, [Closure(body)] + k)) == Ok(State(Push(d, st, Clo(body, env)), env, k))
  {
    assert ([Closure(body)] + k)[1..] == k;
  }

  /** LET moves the top of the stack into the environment; ENDLET drops it again. */
  lemma LetInstr(d: Discipline, st: seq<Value>, env: seq<Value>, v: Value, k: seq<Cmd>, k': seq<Cmd>)
    ensures Step(d, State(Push(d, st, v), env, [Let] + k)) == Ok(State(st, [v] + env, k))
    ensures Step(d, State(st, [v] + env, [EndLet] + k')) == Ok(State(st, env, k'))
    ensures Step(d, State(st, [], [EndLet] + k')) == Ok(State(st, [], k'))
  {
    assert ([Let] + k)[1..] == k;
    assert ([EndLet] + k')[1..] == k';
    assert ([v] + env)[1..] == env;
  }

  /** IFTE on a boolean continues with exactly one branch in front of the
      pending code; on anything else it faults. */
  lemma IfteInstr(d: Discipline, st: seq<Value>, env: seq<Value>, v: Value, c1: seq<Cmd>, c2: seq<Cmd>, k: seq<Cmd>)
    ensures v.Bool? ==>
      Step(d, State(Push(d, st, v), env, [Cmd.Ifte(c1, c2)] + k)) == Ok(State(st, env, (if v.b then c1 else c2) + k))
    ensures !v.Bool? ==>
      Step(d, State(Push(d, st, v), env, [Cmd.Ifte(c1, c2)] + k)) == Err(TypeMismatch)
  {
    assert ([Cmd.Ifte(c1, c2)] + k)[1..] == k;
  }

  /** APPLY on something that is not a closure faults. */
  lemma ApplyNonClosure(d: Discipline, st: seq<Value>, env: seq<Value>, fn: Value, arg: Value, k: seq<Cmd>)
    requires !fn.Clo?
    ensures Step(d, State(Push(d, Push(d, st, fn), arg), env, [Apply] + k)) == Err(NotCallable)
  {
  }

  /** RETURN faults when the entry under the result is not a continuation closure. */
  lemma ReturnNonClosure(d: Discipline, st: seq<Value>, env: seq<Value>, cont: Value, result: Value, k: seq<Cmd>)
    requires !cont.Clo?
    ensures Step(d, State(Push(d, Push(d, st, cont), result), env, [Return] + k)) == Err(BadContinuation)
  {
  }

  /** The machine has neither faulted nor used up its code. */
  predicate Running(run: Result<State>) {
    run.Ok? && run.value.code != []
  }

  /** A machine still running after `n` steps was running after every earlier count. */
  lemma RunningBefore(d: Discipline, s: State, m: nat, n: nat)
    requires m <= n && Running(Iterate(d, s, n))
    ensures Running(Iterate(d, s, m))
  {
    IterateSplit(d, s, m, n - m);
  }

  /** A whole call seen from the caller: if the callee's body, run on top
      of the continuation, leaves one result above it and reaches its
      RETURN in `n` steps, then `n + 2` steps take the caller from the
      APPLY to its own pending code, with the argument and function
      replaced by the result and its environment as before. */
  lemma {:induction false} CallNetEffect(d: Discipline, st: seq<Value>, env: seq<Value>, k: seq<Cmd>,
                                         fn: Value, arg: Value, n: nat, result: Value, calleeEnv: seq<Value>)
    requires fn.Clo?
    requires Iterate(d, State(Push(d, st, Clo(k, env)), [fn, arg] + fn.env, fn.code), n)
          == Ok(State(Push(d, Push(d, st, Clo(k, env)), result), calleeEnv, [Return]))
    ensures Iterate(d, State(Push(d, Push(d, st, fn), arg), env, [Apply] + k), n + 2)
         == Ok(State(Push(d, st, result), env, k))
  {
    var s0 := State(Push(d, Push(d, st, fn), arg), env, [Apply] + k);
    var s1 := State(Push(d, st, Clo(k, env)), [fn, arg] + fn.env, fn.code);
    var s2 := State(Push(d, Push(d, st, Clo(k, env)), result), calleeEnv, [Return]);
    CallReturn(d, st, env, k, fn, arg, result, calleeEnv, []);
    assert [Return] == [Return] + [];
    IterateSplit(d, s0, 1, n + 1);
    assert Iterate(d, s0, 1) == Ok(s1);
    IterateSplit(d, s1, n, 1);
    assert Iterate(d, s2, 1) == Ok(State(Push(d, st, result), env, k));
  }
}
