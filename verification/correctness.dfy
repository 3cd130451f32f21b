/** Compiler correctness: running the compiled code of a term on the
    machine produces what the reference evaluator produces, for every
    term, every environment and either stack discipline, including
    closures, recursion and every fault. */
module Correctness {
  import opened Faults
  import A = Ast
  import opened Bytecode
  import Compiler
  import opened Machine
  import opened Reference

  /** The compile-time name list that matches a run-time environment. */
  function Names(env: seq<Binding>): (names: seq<string>)
    ensures |names| == |env|
  {
    if env == [] then [] else [env[0].name] + Names(env[1..])
  }

  /** A reference value and the machine value that represents it. A closure
      is represented by the compiled code of its body under
      `self :: param :: names`, followed by RETURN, together with a
      captured environment that represents its own. */
  predicate Rel(v: RValue, w: Value)
    decreases v, 1
  {
    match v
    case RInt(i) => w == Int(i)
    case RBool(b) => w == Bool(b)
    case RClo(f, x, m, renv) =>
      && w.Clo?
      && EnvRel(renv, w.env)
      && Compiler.Compile(m, [f, x] + Names(renv)).Ok?
      && w.code == Compiler.Compile(m, [f, x] + Names(renv)).value + [Return]
  }

  /** Entry-by-entry representation of environments. */
  predicate EnvRel(renv: seq<Binding>, menv: seq<Value>)
    decreases renv, 0
  {
    && |renv| == |menv|
    && (renv != [] ==> Rel(renv[0].value, menv[0]) && EnvRel(renv[1..], menv[1..]))
  }

  lemma {:induction false} EnvRelAt(renv: seq<Binding>, menv: seq<Value>, i: nat)
    requires EnvRel(renv, menv) && i < |renv|
    ensures Rel(renv[i].value, menv[i])
  {
    if i > 0 {
      EnvRelAt(renv[1..], menv[1..], i - 1);
    }
  }

  /** The position the compiler assigns to a variable holds, at run time,
      the value the reference evaluator looks the name up to. */
  lemma {:induction false} LookupResolve(x: string, renv: seq<Binding>, i: nat)
    requires i < |renv| && Names(renv)[i] == x
    requires forall j :: 0 <= j < i ==> Names(renv)[j] != x
    ensures Lookup(x, renv) == Ok(renv[i].value)
  {
    if i > 0 {
      assert Names(renv)[0] != x;
      assert Names(renv) == [renv[0].name] + Names(renv[1..]);
      assert forall j :: 0 <= j < i - 1 ==> Names(renv[1..])[j] == Names(renv)[j + 1];
      LookupResolve(x, renv[1..], i - 1);
    }
  }

  lemma Op1Agrees(op: A.Op1, v: RValue, w: Value)
    requires Rel(v, w)
    ensures var r := EvalOp1(op, v);
      && (r.Err? ==> Unary(Op1Cmd(op), w) == Err(r.error))
      && (r.Ok? ==> Unary(Op1Cmd(op), w).Ok? && Rel(r.value, Unary(Op1Cmd(op), w).value))
  {
  }

  lemma Op2Agrees(op: A.Op2, l: RValue, r: RValue, wl: Value, wr: Value)
    requires Rel(l, wl) && Rel(r, wr)
    ensures var e := EvalOp2(op, l, r);
      && (e.Err? ==> Binary(Op2Cmd(op), wl, wr) == Err(e.error))
      && (e.Ok? ==> Binary(Op2Cmd(op), wl, wr).Ok? && Rel(e.value, Binary(Op2Cmd(op), wl, wr).value))
  {
  }

  /** Sequencing runs: a run that reached `s'` continues from there. */
  lemma Chain(d: Discipline, s: State, a: nat, s': State, b: nat)
    requires Iterate(d, s, a) == Ok(s')
    ensures Iterate(d, s, a + b) == Iterate(d, s', b)
  {
    IterateSplit(d, s, a, b);
  }

  /** How a machine run of `steps` steps relates to a reference result `r`
      computed with `fuel`: a value is matched by the run reaching `k` with
      one representing value pushed and the environment as it was; a fault
      by the same fault; and the reference running out of fuel by a machine
      that, after at least `fuel` steps, is still running. */
  predicate Reaches(d: Discipline, r: Result<RValue>, run: Result<State>, steps: nat, fuel: nat,
                    stack: seq<Value>, menv: seq<Value>, k: seq<Cmd>, w: Value)
  {
    && (r.Ok? ==> run == Ok(State(Push(d, stack, w), menv, k)) && Rel(r.value, w))
    && (r.Err? && r.error != OutOfFuel ==> run == Err(r.error))
    && (r.Err? && r.error == OutOfFuel ==> steps >= fuel && Running(run))
  }

  /** What the machine does with the compiled code of `t` in `n` steps,
      measured against the reference evaluator (see `Correct`). */
  predicate Simulates(d: Discipline, fuel: nat, t: A.Term, renv: seq<Binding>, menv: seq<Value>,
                      code: seq<Cmd>, stack: seq<Value>, k: seq<Cmd>, n: nat, w: Value)
  {
    Reaches(d, Eval(fuel, t, renv), Iterate(d, State(stack, menv, code + k), n), n, fuel, stack, menv, k, w)
  }

  /** The main theorem. Start the machine with any stack, an environment
      that represents the reference environment, and the compiled code of
      `t` followed by any pending code `k`. If the reference evaluator
      produces a value, then after `n` steps the machine has pushed exactly
      one value representing it, left the environment as it found it and
      reached `k`; if the reference evaluator faults, the machine raises the
      same fault; if the reference evaluator runs out of fuel, the machine
      has run at least `fuel` steps without faulting or finishing. */
  lemma Correct(d: Discipline, fuel: nat, t: A.Term, renv: seq<Binding>, menv: seq<Value>,
                code: seq<Cmd>, stack: seq<Value>, k: seq<Cmd>)
    returns (n: nat, w: Value)
    requires EnvRel(renv, menv)
    requires Compiler.Compile(t, Names(renv)) == Ok(code)
    ensures var r := Eval(fuel, t, renv);
      && (r.Ok? ==> Iterate(d, State(stack, menv, code + k), n) == Ok(State(Push(d, stack, w), menv, k))
                    && Rel(r.value, w))
      && (r.Err? && r.error != OutOfFuel ==> Iterate(d, State(stack, menv, code + k), n) == Err(r.error))
      && (r.Err? && r.error == OutOfFuel ==> n >= fuel && Running(Iterate(d, State(stack, menv, code + k), n)))
  {
    n, w := Simulate(d, fuel, t, renv, menv, code, stack, k);
  }

  /** `Correct`, stated through `Simulates` for the induction: one case per kind of term. */
  lemma {:induction false} Simulate(d: Discipline, fuel: nat, t: A.Term, renv: seq<Binding>, menv: seq<Value>,
                                    code: seq<Cmd>, stack: seq<Value>, k: seq<Cmd>)
    returns (n: nat, w: Value)
    requires EnvRel(renv, menv)
    requires Compiler.Compile(t, Names(renv)) == Ok(code)
    ensures Simulates(d, fuel, t, renv, menv, code, stack, k, n, w)
    decreases fuel, t, 2
  {
    match t
    case Int(_) => n, w := CorrectLeaf(d, fuel, t, renv, menv, code, stack, k);
    case Bool(_) => n, w := CorrectLeaf(d, fuel, t, renv, menv, code, stack, k);
    case Var(_) => n, w := CorrectVar(d, fuel, t, renv, menv, code, stack, k);
    case Fun(_, _, _) => n, w := CorrectLeaf(d, fuel, t, renv, menv, code, stack, k);
    case Op1(_, _) => n, w := CorrectOp1(d, fuel, t, renv, menv, code, stack, k);
    case Op2(_, _, _) => n, w := CorrectOp2(d, fuel, t, renv, menv, code, stack, k);
    case App(_, _) => n, w := CorrectApp(d, fuel, t, renv, menv, code, stack, k);
    case LetIn(_, _, _) => n, w := CorrectLet(d, fuel, t, renv, menv, code, stack, k);
    case Ifte(_, _, _) => n, w := CorrectIfte(d, fuel, t, renv, menv, code, stack, k);
  }

  /** End to end, for either copy of the machine: a closed program
      compiles, and `Term::run` agrees with the reference evaluator. A
      value is answered with a representing value and a fault with the same
      fault, once the step budget is large enough (a larger budget changes
      nothing, see `Machine.ExecuteSettles`); when the reference evaluator
      runs out of fuel, the machine is still running after at least as many
      steps. */
  lemma RunAgrees(d: Discipline, fuel: nat, t: A.Term) returns (n: nat)
    requires A.FreeVars(t) == {}
    ensures Compiler.Compile(t, []).Ok?
    ensures var r := Eval(fuel, t, []);
      && (r.Ok? ==> Evaluate(d, t, n).Ok? && Rel(r.value, Evaluate(d, t, n).value))
      && (r.Err? && r.error != OutOfFuel ==> Evaluate(d, t, n) == Err(r.error))
      && (r.Err? && r.error == OutOfFuel ==>
            n >= fuel && Running(Iterate(d, State([], [], Compiler.Compile(t, []).value), n)))
    ensures Eval(fuel, t, []).Ok? || Eval(fuel, t, []).error != OutOfFuel ==>
      && (Iterate(d, State([], [], Compiler.Compile(t, []).value), n).Err? ||
          Iterate(d, State([], [], Compiler.Compile(t, []).value), n).value.code == [])
      && (Evaluate(d, t, n).Err? ==> !Evaluate(d, t, n).error.IsMachineOnly())
  {
    assert Names([]) == [];
    var code := Compiler.Compile(t, []).value;
    var s := State([], [], code);
    var w;
    n, w := Correct(d, fuel, t, [], [], code, [], []);
    assert code + [] == code;
    assert Evaluate(d, t, n) == Execute(d, s, n);
    var r := Eval(fuel, t, []);
    if r.Ok? {
      assert Iterate(d, s, n) == Ok(State(Push(d, [], w), [], []));
      assert Pop(d, Push(d, [], w)) == Ok((w, []));
      assert Execute(d, s, n) == Ok(w);
    } else if r.error != OutOfFuel {
      assert Iterate(d, s, n) == Err(r.error);
      assert Execute(d, s, n) == Err(r.error);
    }
  }

  /** A closed program the reference evaluator never finishes, whatever
      its fuel, keeps the machine running forever: after any number of
      steps it has neither faulted nor used up its code. */
  lemma Diverges(d: Discipline, t: A.Term, m: nat)
    requires A.FreeVars(t) == {}
    requires forall fuel: nat :: Eval(fuel, t, []) == Err(OutOfFuel)
    ensures Compiler.Compile(t, []).Ok?
    ensures Running(Iterate(d, State([], [], Compiler.Compile(t, []).value), m))
    ensures Evaluate(d, t, m) == Err(OutOfFuel)
  {
    var n := RunAgrees(d, m, t);
    var s := State([], [], Compiler.Compile(t, []).value);
    RunningBefore(d, s, m, n);
  }

  /** `App(Fun("f", "x", App(Var("f"), Var("x"))), Int(0))`: a function
      named `f` that calls itself on its argument, applied to 0. */
  const Loop: A.Term := A.App(A.Fun("f", "x", A.App(A.Var("f"), A.Var("x"))), A.Int(0))

  lemma {:induction false} LoopBodyOutOfFuel(fuel: nat, fv: RValue, a: RValue)
    requires fv == RClo("f", "x", A.App(A.Var("f"), A.Var("x")), [])
    ensures Eval(fuel, fv.body, [Binding("f", fv), Binding("x", a)]) == Err(OutOfFuel)
  {
    var env := [Binding("f", fv), Binding("x", a)];
    assert Eval(fuel, A.Var("f"), env) == Ok(fv);
    assert "f"[0] != "x"[0];
    assert env[1..] == [Binding("x", a)];
    assert Lookup("x", env[1..]) == Ok(a);
    assert Eval(fuel, A.Var("x"), env) == Ok(a);
    if fuel > 0 {
      assert [Binding(fv.self, fv), Binding(fv.param, a)] + fv.env == env;
      LoopBodyOutOfFuel(fuel - 1, fv, a);
    }
  }

  /** The machine runs `Loop` forever, without a fault. */
  lemma LoopDiverges(d: Discipline, m: nat)
    ensures Evaluate(d, Loop, m) == Err(OutOfFuel)
  {
    var fv := RClo("f", "x", A.App(A.Var("f"), A.Var("x")), []);
    forall fuel: nat
      ensures Eval(fuel, Loop, []) == Err(OutOfFuel)
    {
      assert Eval(fuel, Loop.m, []) == Ok(fv);
      if fuel > 0 {
        assert [Binding(fv.self, fv), Binding(fv.param, RInt(0))] + fv.env == [Binding("f", fv), Binding("x", RInt(0))];
        LoopBodyOutOfFuel(fuel - 1, fv, RInt(0));
      }
    }
    assert A.FreeVars(Loop) == {};
    Diverges(d, Loop, m);
  }

  /** No closed program, under any step budget, ends in a fault only the
      machine can raise (an empty stack, an environment index out of range
      or a bad continuation): compiled code never misuses the machine. */
  lemma NoMachineFault(d: Discipline, t: A.Term, m: nat)
    requires A.FreeVars(t) == {}
    ensures Evaluate(d, t, m).Err? ==> !Evaluate(d, t, m).error.IsMachineOnly()
  {
    var n := RunAgrees(d, m, t);
    var s := State([], [], Compiler.Compile(t, []).value);
    assert Evaluate(d, t, m) == Execute(d, s, m);
    if Eval(m, t, []).Err? && Eval(m, t, []).error == OutOfFuel {
      RunningBefore(d, s, m, n);
      assert Execute(d, s, m) == Err(OutOfFuel);
    } else {
      ExecuteBefore(d, s, m, n);
    }
  }

  /** `&&` and `||` do not short-circuit: a fault in the right operand
      surfaces even when the left one already decides the answer. */
  lemma NoShortCircuit(d: Discipline, fuel: nat, op: A.Op2, m: A.Term, n: A.Term) returns (steps: nat)
    requires op == A.And || op == A.Or
    requires A.FreeVars(A.Op2(op, m, n)) == {}
    requires Eval(fuel, m, []) == Ok(RBool(op == A.Or))
    requires Eval(fuel, n, []).Err? && Eval(fuel, n, []).error != OutOfFuel
    ensures Evaluate(d, A.Op2(op, m, n), steps) == Err(Eval(fuel, n, []).error)
  {
    steps := RunAgrees(d, fuel, A.Op2(op, m, n));
  }

  // ----- literals and functions: one instruction -----

  lemma CorrectLeaf(d: Discipline, fuel: nat, t: A.Term, renv: seq<Binding>, menv: seq<Value>,
                    code: seq<Cmd>, stack: seq<Value>, k: seq<Cmd>)
    returns (n: nat, w: Value)
    requires t.Int? || t.Bool? || t.Fun?
    requires EnvRel(renv, menv)
    requires Compiler.Compile(t, Names(renv)) == Ok(code)
    ensures Simulates(d, fuel, t, renv, menv, code, stack, k, n, w)
  {
    var s0 := State(stack, menv, code + k);
    assert (code + k)[1..] == k;
    StepAfter(d, s0, 0, s0);
    n := 1;
    match t
    case Int(i) => w := Int(i);
    case Bool(b) => w := Bool(b);
    case Fun(f, x, m) =>
      var cm := Compiler.CompileFun(t, Names(renv), code);
      w := Clo(cm + [Return], menv);
  }

  lemma CorrectVar(d: Discipline, fuel: nat, t: A.Term, renv: seq<Binding>, menv: seq<Value>,
                   code: seq<Cmd>, stack: seq<Value>, k: seq<Cmd>)
    returns (n: nat, w: Value)
    requires t.Var?
    requires EnvRel(renv, menv)
    requires Compiler.Compile(t, Names(renv)) == Ok(code)
    ensures Simulates(d, fuel, t, renv, menv, code, stack, k, n, w)
  {
    var i := Compiler.Resolve(t.x, Names(renv)).value;
    Compiler.CompileVar(t.x, Names(renv), i);
    LookupResolve(t.x, renv, i);
    EnvRelAt(renv, menv, i);
    AccessInstr(d, stack, menv, i, k);
    StepAfter(d, State(stack, menv, code + k), 0, State(stack, menv, code + k));
    n, w := 1, menv[i];
  }

  // ----- unary operators -----

  /** The reference result of a unary operator applied to the operand's result. */
  function Op1Of(op: A.Op1, r1: Result<RValue>): Result<RValue> {
    var v :- r1;
    EvalOp1(op, v)
  }

  lemma {:induction false} CorrectOp1(d: Discipline, fuel: nat, t: A.Term, renv: seq<Binding>, menv: seq<Value>,
                                      code: seq<Cmd>, stack: seq<Value>, k: seq<Cmd>)
    returns (n: nat, w: Value)
    requires t.Op1?
    requires EnvRel(renv, menv)
    requires Compiler.Compile(t, Names(renv)) == Ok(code)
    ensures Simulates(d, fuel, t, renv, menv, code, stack, k, n, w)
    decreases fuel, t, 1
  {
    var cm := Compiler.CompileOp1(t, Names(renv), code);
    var c := Op1Cmd(t.op1);
    var n1, w1 := Simulate(d, fuel, t.m, renv, menv, cm, stack, [c] + k);
    assert code + k == cm + ([c] + k);
    n, w := Op1Machine(d, t.op1, State(stack, menv, code + k), n1, fuel, stack, menv, k, Eval(fuel, t.m, renv), w1);
  }

  lemma Op1Machine(d: Discipline, op: A.Op1, s0: State, a: nat, fuel: nat, stack: seq<Value>, menv: seq<Value>,
                   k: seq<Cmd>, r1: Result<RValue>, w1: Value)
    returns (n: nat, w: Value)
    requires Reaches(d, r1, Iterate(d, s0, a), a, fuel, stack, menv, [Op1Cmd(op)] + k, w1)
    ensures Reaches(d, Op1Of(op, r1), Iterate(d, s0, n), n, fuel, stack, menv, k, w)
  {
    n, w := a, w1;
    if r1.Ok? {
      var c := Op1Cmd(op);
      Op1Agrees(op, r1.value, w1);
      UnaryInstr(d, c, stack, menv, w1, k);
      StepAfter(d, s0, a, State(Push(d, stack, w1), menv, [c] + k));
      n := a + 1;
      if Unary(c, w1).Ok? {
        w := Unary(c, w1).value;
      }
    }
  }

  // ----- binary operators -----

  /** The reference result of a binary operator: left operand first, then right. */
  function Op2Of(op: A.Op2, r1: Result<RValue>, r2: Result<RValue>): Result<RValue> {
    var l :- r1;
    var r :- r2;
    EvalOp2(op, l, r)
  }

  lemma {:induction false} CorrectOp2(d: Discipline, fuel: nat, t: A.Term, renv: seq<Binding>, menv: seq<Value>,
                                      code: seq<Cmd>, stack: seq<Value>, k: seq<Cmd>)
    returns (n: nat, w: Value)
    requires t.Op2?
    requires EnvRel(renv, menv)
    requires Compiler.Compile(t, Names(renv)) == Ok(code)
    ensures Simulates(d, fuel, t, renv, menv, code, stack, k, n, w)
    decreases fuel, t, 1
  {
    var cm1, cm2 := Compiler.CompileOp2(t, Names(renv), code);
    var c := Op2Cmd(t.op2);
    var n1, w1 := Simulate(d, fuel, t.m, renv, menv, cm1, stack, cm2 + ([c] + k));
    var n2, w2 := Simulate(d, fuel, t.n, renv, menv, cm2, Push(d, stack, w1), [c] + k);
    assert code + k == cm1 + (cm2 + ([c] + k));
    n, w := Op2Machine(d, t.op2, State(stack, menv, code + k), n1, fuel, stack, menv, cm2, k,
                       Eval(fuel, t.m, renv), w1, n2, Eval(fuel, t.n, renv), w2);
  }

  lemma Op2Machine(d: Discipline, op: A.Op2, s0: State, a: nat, fuel: nat, stack: seq<Value>, menv: seq<Value>,
                   cm2: seq<Cmd>, k: seq<Cmd>, r1: Result<RValue>, w1: Value, n2: nat, r2: Result<RValue>, w2: Value)
    returns (n: nat, w: Value)
    requires Reaches(d, r1, Iterate(d, s0, a), a, fuel, stack, menv, cm2 + ([Op2Cmd(op)] + k), w1)
    requires r1.Ok? ==> Reaches(d, r2, Iterate(d, State(Push(d, stack, w1), menv, cm2 + ([Op2Cmd(op)] + k)), n2),
                                n2, fuel, Push(d, stack, w1), menv, [Op2Cmd(op)] + k, w2)
    ensures Reaches(d, Op2Of(op, r1, r2), Iterate(d, s0, n), n, fuel, stack, menv, k, w)
  {
    n, w := a, w1;
    if r1.Ok? {
      Chain(d, s0, a, State(Push(d, stack, w1), menv, cm2 + ([Op2Cmd(op)] + k)), n2);
      n, w := a + n2, w2;
      if r2.Ok? {
        n, w := Op2Apply(d, op, s0, a + n2, fuel, stack, menv, k, r1.value, w1, r2.value, w2);
      }
    }
  }

  lemma Op2Apply(d: Discipline, op: A.Op2, s0: State, a: nat, fuel: nat, stack: seq<Value>, menv: seq<Value>,
                 k: seq<Cmd>, v1: RValue, w1: Value, v2: RValue, w2: Value)
    returns (n: nat, w: Value)
    requires Rel(v1, w1) && Rel(v2, w2)
    requires Iterate(d, s0, a) == Ok(State(Push(d, Push(d, stack, w1), w2), menv, [Op2Cmd(op)] + k))
    ensures Reaches(d, EvalOp2(op, v1, v2), Iterate(d, s0, n), n, fuel, stack, menv, k, w)
  {
    var c := Op2Cmd(op);
    Op2Agrees(op, v1, v2, w1, w2);
    BinaryInstr(d, c, stack, menv, w1, w2, k);
    StepAfter(d, s0, a, State(Push(d, Push(d, stack, w1), w2), menv, [c] + k));
    n, w := a + 1, w2;
    if Binary(c, w1, w2).Ok? {
      w := Binary(c, w1, w2).value;
    }
  }

  // ----- let -----

  /** The body of a `let` runs in the environment extended by the bound value. */
  lemma LetEnv(x: string, v: RValue, w: Value, renv: seq<Binding>, menv: seq<Value>)
    requires EnvRel(renv, menv) && Rel(v, w)
    ensures EnvRel([Binding(x, v)] + renv, [w] + menv)
    ensures Names([Binding(x, v)] + renv) == [x] + Names(renv)
  {
    assert ([Binding(x, v)] + renv)[1..] == renv;
    assert ([w] + menv)[1..] == menv;
  }

  /** A fault of the first part is the fault of the whole; otherwise the
      result is that of the second part. */
  function Then(r1: Result<RValue>, r2: Result<RValue>): Result<RValue> {
    if r1.Err? then Err(r1.error) else r2
  }

  lemma {:induction false} CorrectLet(d: Discipline, fuel: nat, t: A.Term, renv: seq<Binding>, menv: seq<Value>,
                                      code: seq<Cmd>, stack: seq<Value>, k: seq<Cmd>)
    returns (n: nat, w: Value)
    requires t.LetIn?
    requires EnvRel(renv, menv)
    requires Compiler.Compile(t, Names(renv)) == Ok(code)
    ensures Simulates(d, fuel, t, renv, menv, code, stack, k, n, w)
    decreases fuel, t, 1
  {
    var cm1, cm2 := Compiler.CompileLet(t, Names(renv), code);
    var n1, w1 := Simulate(d, fuel, t.m, renv, menv, cm1, stack, [Let] + (cm2 + ([EndLet] + k)));
    var r1 := Eval(fuel, t.m, renv);
    var n2, r2, w2 := 0, r1, w1;
    if r1.Ok? {
      LetEnv(t.x, r1.value, w1, renv, menv);
      var env' := [Binding(t.x, r1.value)] + renv;
      n2, w2 := Simulate(d, fuel, t.n, env', [w1] + menv, cm2, stack, [EndLet] + k);
      r2 := Eval(fuel, t.n, env');
    }
    assert code + k == cm1 + ([Let] + (cm2 + ([EndLet] + k)));
    n, w := LetMachine(d, State(stack, menv, code + k), n1, fuel, stack, menv, cm2, k, r1, w1, n2, r2, w2);
  }

  lemma LetMachine(d: Discipline, s0: State, a: nat, fuel: nat, stack: seq<Value>, menv: seq<Value>,
                   cm2: seq<Cmd>, k: seq<Cmd>, r1: Result<RValue>, w1: Value, n2: nat, r2: Result<RValue>, w2: Value)
    returns (n: nat, w: Value)
    requires Reaches(d, r1, Iterate(d, s0, a), a, fuel, stack, menv, [Let] + (cm2 + ([EndLet] + k)), w1)
    requires r1.Ok? ==> Reaches(d, r2, Iterate(d, State(stack, [w1] + menv, cm2 + ([EndLet] + k)), n2),
                                n2, fuel, stack, [w1] + menv, [EndLet] + k, w2)
    ensures Reaches(d, Then(r1, r2), Iterate(d, s0, n), n, fuel, stack, menv, k, w)
  {
    n, w := a, w1;
    if r1.Ok? {
      var s1 := State(Push(d, stack, w1), menv, [Let] + (cm2 + ([EndLet] + k)));
      LetInstr(d, stack, menv, w1, cm2 + ([EndLet] + k), k);
      StepAfter(d, s0, a, s1);
      n, w := LetBodyMachine(d, s0, a + 1, fuel, stack, menv, cm2, k, w1, n2, r2, w2);
    }
  }

  /** The body of a `let` runs with the bound value in front of the
      environment; ENDLET then drops it. */
  lemma LetBodyMachine(d: Discipline, s0: State, a: nat, fuel: nat, stack: seq<Value>, menv: seq<Value>,
                       cm2: seq<Cmd>, k: seq<Cmd>, w1: Value, n2: nat, r2: Result<RValue>, w2: Value)
    returns (n: nat, w: Value)
    requires Iterate(d, s0, a) == Ok(State(stack, [w1] + menv, cm2 + ([EndLet] + k)))
    requires Reaches(d, r2, Iterate(d, State(stack, [w1] + menv, cm2 + ([EndLet] + k)), n2),
                     n2, fuel, stack, [w1] + menv, [EndLet] + k, w2)
    ensures Reaches(d, r2, Iterate(d, s0, n), n, fuel, stack, menv, k, w)
  {
    Chain(d, s0, a, State(stack, [w1] + menv, cm2 + ([EndLet] + k)), n2);
    n, w := a + n2, w2;
    if r2.Ok? {
      LetLeave(d, stack, menv, w1, w2, k);
      StepAfter(d, s0, a + n2, State(Push(d, stack, w2), [w1] + menv, [EndLet] + k));
      n := a + n2 + 1;
    }
  }

  lemma LetLeave(d: Discipline, stack: seq<Value>, menv: seq<Value>, v: Value, w: Value, k: seq<Cmd>)
    ensures Step(d, State(Push(d, stack, w), [v] + menv, [EndLet] + k)) == Ok(State(Push(d, stack, w), menv, k))
  {
    LetInstr(d, Push(d, stack, w), menv, v, k, k);
  }

  // ----- conditionals -----

  /** The reference result of a conditional, given the condition's result
      and the result of the branch it selects. */
  function IfteOf(rc: Result<RValue>, rb: Result<RValue>): Result<RValue> {
    var b :- rc;
    if !b.RBool? then Err(TypeMismatch) else rb
  }

  lemma {:induction false} CorrectIfte(d: Discipline, fuel: nat, t: A.Term, renv: seq<Binding>, menv: seq<Value>,
                                       code: seq<Cmd>, stack: seq<Value>, k: seq<Cmd>)
    returns (n: nat, w: Value)
    requires t.Ifte?
    requires EnvRel(renv, menv)
    requires Compiler.Compile(t, Names(renv)) == Ok(code)
    ensures Simulates(d, fuel, t, renv, menv, code, stack, k, n, w)
    decreases fuel, t, 1
  {
    var cc, cm1, cm2 := Compiler.CompileIfte(t, Names(renv), code);
    var n1, w1 := Simulate(d, fuel, t.c, renv, menv, cc, stack, [Cmd.Ifte(cm1, cm2)] + k);
    var rc := Eval(fuel, t.c, renv);
    var n2, rb, w2 := 0, rc, w1;
    if rc.Ok? && rc.value.RBool? {
      var taken := if rc.value.b then t.m else t.n;
      n2, w2 := Simulate(d, fuel, taken, renv, menv, if rc.value.b then cm1 else cm2, stack, k);
      rb := Eval(fuel, taken, renv);
    }
    assert code + k == cc + ([Cmd.Ifte(cm1, cm2)] + k);
    n, w := IfteMachine(d, State(stack, menv, code + k), n1, fuel, stack, menv, cm1, cm2, k, rc, w1, n2, rb, w2);
  }

  lemma IfteMachine(d: Discipline, s0: State, a: nat, fuel: nat, stack: seq<Value>, menv: seq<Value>,
                    cm1: seq<Cmd>, cm2: seq<Cmd>, k: seq<Cmd>, rc: Result<RValue>, w1: Value,
                    n2: nat, rb: Result<RValue>, w2: Value)
    returns (n: nat, w: Value)
    requires Reaches(d, rc, Iterate(d, s0, a), a, fuel, stack, menv, [Cmd.Ifte(cm1, cm2)] + k, w1)
    requires rc.Ok? && rc.value.RBool? ==>
      Reaches(d, rb, Iterate(d, State(stack, menv, (if rc.value.b then cm1 else cm2) + k), n2), n2, fuel,
              stack, menv, k, w2)
    ensures Reaches(d, IfteOf(rc, rb), Iterate(d, s0, n), n, fuel, stack, menv, k, w)
  {
    n, w := a, w1;
    if rc.Ok? {
      IfteInstr(d, stack, menv, w1, cm1, cm2, k);
      StepAfter(d, s0, a, State(Push(d, stack, w1), menv, [Cmd.Ifte(cm1, cm2)] + k));
      n := a + 1;
      if rc.value.RBool? {
        n, w := BranchMachine(d, s0, a + 1, fuel, stack, menv, (if rc.value.b then cm1 else cm2) + k, k, n2, rb, w2);
      }
    }
  }

  /** Running the chosen branch. */
  lemma BranchMachine(d: Discipline, s0: State, a: nat, fuel: nat, stack: seq<Value>, menv: seq<Value>,
                      code: seq<Cmd>, k: seq<Cmd>, n2: nat, rb: Result<RValue>, w2: Value)
    returns (n: nat, w: Value)
    requires Iterate(d, s0, a) == Ok(State(stack, menv, code))
    requires Reaches(d, rb, Iterate(d, State(stack, menv, code), n2), n2, fuel, stack, menv, k, w2)
    ensures Reaches(d, rb, Iterate(d, s0, n), n, fuel, stack, menv, k, w)
  {
    Chain(d, s0, a, State(stack, menv, code), n2);
    n, w := a + n2, w2;
  }

  // ----- application -----

  /** The environment a call runs its body in represents the reference
      call environment, and its names are the ones the body was compiled under. */
  lemma CallEnv(fv: RValue, a: RValue, wf: Value, wa: Value)
    requires fv.RClo? && Rel(fv, wf) && Rel(a, wa)
    ensures var benv := [Binding(fv.self, fv), Binding(fv.param, a)] + fv.env;
      && EnvRel(benv, [wf, wa] + wf.env)
      && Names(benv) == [fv.self, fv.param] + Names(fv.env)
      && Compiler.Compile(fv.body, Names(benv)).Ok?
      && wf.code == Compiler.Compile(fv.body, Names(benv)).value + [Return]
  {
    var benv := [Binding(fv.self, fv), Binding(fv.param, a)] + fv.env;
    assert benv[1..] == [Binding(fv.param, a)] + fv.env;
    assert benv[1..][1..] == fv.env;
    assert ([wf, wa] + wf.env)[1..] == [wa] + wf.env;
    assert ([wf, wa] + wf.env)[1..][1..] == wf.env;
  }

  /** The reference result of an application, given the results of the
      function, the argument and the body. */
  function AppOf(fuel: nat, r1: Result<RValue>, r2: Result<RValue>, rb: Result<RValue>): Result<RValue> {
    var fv :- r1;
    var a :- r2;
    if !fv.RClo? then Err(NotCallable)
    else if fuel == 0 then Err(OutOfFuel)
    else rb
  }

  lemma {:induction false} CorrectApp(d: Discipline, fuel: nat, t: A.Term, renv: seq<Binding>, menv: seq<Value>,
                                      code: seq<Cmd>, stack: seq<Value>, k: seq<Cmd>)
    returns (n: nat, w: Value)
    requires t.App?
    requires EnvRel(renv, menv)
    requires Compiler.Compile(t, Names(renv)) == Ok(code)
    ensures Simulates(d, fuel, t, renv, menv, code, stack, k, n, w)
    decreases fuel, t, 1
  {
    var cm1, cm2 := Compiler.CompileApp(t, Names(renv), code);
    var n1, w1 := Simulate(d, fuel, t.m, renv, menv, cm1, stack, cm2 + ([Apply] + k));
    var n2, w2 := Simulate(d, fuel, t.n, renv, menv, cm2, Push(d, stack, w1), [Apply] + k);
    var r1, r2 := Eval(fuel, t.m, renv), Eval(fuel, t.n, renv);
    var n3, rb, w3 := AppCall(d, fuel, t, r1, w1, r2, w2, stack, menv, k);
    assert code + k == cm1 + (cm2 + ([Apply] + k));
    AppEval(fuel, t, renv, rb);
    n, w := AppMachine(d, fuel, State(stack, menv, code + k), n1, stack, menv, cm2, k,
                       r1, w1, n2, r2, w2, n3, rb, w3);
  }

  /** The reference result of an application, split into its parts. */
  lemma AppEval(fuel: nat, t: A.Term, renv: seq<Binding>, rb: Result<RValue>)
    requires t.App?
    requires var r1, r2 := Eval(fuel, t.m, renv), Eval(fuel, t.n, renv);
      r1.Ok? && r1.value.RClo? && r2.Ok? && fuel > 0 ==>
        rb == Eval(fuel - 1, r1.value.body, [Binding(r1.value.self, r1.value), Binding(r1.value.param, r2.value)] + r1.value.env)
    ensures Eval(fuel, t, renv) == AppOf(fuel, Eval(fuel, t.m, renv), Eval(fuel, t.n, renv), rb)
  {
  }

  /** When function and argument evaluate to a closure and a value and
      fuel is left, the call's body and what the machine makes of it. The
      application `t` only bounds the recursion. */
  lemma {:induction false} AppCall(d: Discipline, fuel: nat, t: A.Term, r1: Result<RValue>, w1: Value,
                                   r2: Result<RValue>, w2: Value, stack: seq<Value>, menv: seq<Value>, k: seq<Cmd>)
    returns (n3: nat, rb: Result<RValue>, w3: Value)
    requires r1.Ok? ==> Rel(r1.value, w1)
    requires r2.Ok? ==> Rel(r2.value, w2)
    ensures r1.Ok? && r1.value.RClo? && r2.Ok? && fuel > 0 ==>
      && rb == Eval(fuel - 1, r1.value.body,
                    [Binding(r1.value.self, r1.value), Binding(r1.value.param, r2.value)] + r1.value.env)
      && w1.Clo?
      && Reaches(d, rb, Iterate(d, State(Push(d, stack, Clo(k, menv)), [w1, w2] + w1.env, w1.code), n3), n3, fuel - 1,
                 Push(d, stack, Clo(k, menv)), [w1, w2] + w1.env, [Return], w3)
    decreases fuel, t, 0
  {
    n3, rb, w3 := 0, r1, w1;
    if r1.Ok? && r1.value.RClo? && r2.Ok? && fuel > 0 {
      n3, w3 := CorrectCall(d, fuel - 1, r1.value, r2.value, w1, w2, stack, menv, k);
      rb := Eval(fuel - 1, r1.value.body, [Binding(r1.value.self, r1.value), Binding(r1.value.param, r2.value)] + r1.value.env);
    }
  }

  /** The body of a called closure, run on top of the continuation. */
  lemma {:induction false} CorrectCall(d: Discipline, fuel: nat, fv: RValue, a: RValue, w1: Value, w2: Value,
                                       stack: seq<Value>, menv: seq<Value>, k: seq<Cmd>)
    returns (n3: nat, w3: Value)
    requires fv.RClo? && Rel(fv, w1) && Rel(a, w2)
    ensures w1.Clo?
    ensures Reaches(d, Eval(fuel, fv.body, [Binding(fv.self, fv), Binding(fv.param, a)] + fv.env),
                    Iterate(d, State(Push(d, stack, Clo(k, menv)), [w1, w2] + w1.env, w1.code), n3), n3, fuel,
                    Push(d, stack, Clo(k, menv)), [w1, w2] + w1.env, [Return], w3)
    decreases fuel, fv.body, 3
  {
    CallEnv(fv, a, w1, w2);
    var benv := [Binding(fv.self, fv), Binding(fv.param, a)] + fv.env;
    var cb := Compiler.Compile(fv.body, Names(benv)).value;
    n3, w3 := Simulate(d, fuel, fv.body, benv, [w1, w2] + w1.env, cb, Push(d, stack, Clo(k, menv)), [Return]);
  }

  lemma AppMachine(d: Discipline, fuel: nat, s0: State, a: nat, stack: seq<Value>, menv: seq<Value>,
                   cm2: seq<Cmd>, k: seq<Cmd>, r1: Result<RValue>, w1: Value, n2: nat, r2: Result<RValue>, w2: Value,
                   n3: nat, rb: Result<RValue>, w3: Value)
    returns (n: nat, w: Value)
    requires Reaches(d, r1, Iterate(d, s0, a), a, fuel, stack, menv, cm2 + ([Apply] + k), w1)
    requires r1.Ok? ==> Reaches(d, r2, Iterate(d, State(Push(d, stack, w1), menv, cm2 + ([Apply] + k)), n2),
                                n2, fuel, Push(d, stack, w1), menv, [Apply] + k, w2)
    requires r1.Ok? && r1.value.RClo? && r2.Ok? && fuel > 0 ==>
      && w1.Clo?
      && Reaches(d, rb, Iterate(d, State(Push(d, stack, Clo(k, menv)), [w1, w2] + w1.env, w1.code), n3), n3, fuel - 1,
                 Push(d, stack, Clo(k, menv)), [w1, w2] + w1.env, [Return], w3)
    ensures Reaches(d, AppOf(fuel, r1, r2, rb), Iterate(d, s0, n), n, fuel, stack, menv, k, w)
  {
    n, w := a, w1;
    if r1.Ok? {
      Chain(d, s0, a, State(Push(d, stack, w1), menv, cm2 + ([Apply] + k)), n2);
      n, w := ArgMachine(d, fuel, s0, a + n2, stack, menv, k, r1.value, w1, r2, w2, n3, rb, w3);
    }
  }

  /** Function and argument are on the stack, or the argument faulted. */
  lemma ArgMachine(d: Discipline, fuel: nat, s0: State, a: nat, stack: seq<Value>, menv: seq<Value>, k: seq<Cmd>,
                   fv: RValue, w1: Value, r2: Result<RValue>, w2: Value,
                   n3: nat, rb: Result<RValue>, w3: Value)
    returns (n: nat, w: Value)
    requires Rel(fv, w1)
    requires Reaches(d, r2, Iterate(d, s0, a), a, fuel, Push(d, stack, w1), menv, [Apply] + k, w2)
    requires fv.RClo? && r2.Ok? && fuel > 0 ==>
      && w1.Clo?
      && Reaches(d, rb, Iterate(d, State(Push(d, stack, Clo(k, menv)), [w1, w2] + w1.env, w1.code), n3), n3, fuel - 1,
                 Push(d, stack, Clo(k, menv)), [w1, w2] + w1.env, [Return], w3)
    ensures Reaches(d, AppOf(fuel, Ok(fv), r2, rb), Iterate(d, s0, n), n, fuel, stack, menv, k, w)
  {
    n, w := a, w2;
    if r2.Ok? && !fv.RClo? {
      ApplyNonClosure(d, stack, menv, w1, w2, k);
      StepAfter(d, s0, a, State(Push(d, Push(d, stack, w1), w2), menv, [Apply] + k));
      n := a + 1;
    } else if r2.Ok? && fuel > 0 {
      if rb.Ok? {
        n, w := CallReturns(d, s0, a, stack, menv, k, w1, w2, n3, w3);
      } else {
        n := CallBody(d, s0, a, stack, menv, k, w1, w2, n3);
      }
    }
  }

  /** A call whose body returns a value pushes that value in place of the
      function and argument, and resumes the caller's pending code. */
  lemma CallReturns(d: Discipline, s0: State, a: nat, stack: seq<Value>, menv: seq<Value>, k: seq<Cmd>,
                    w1: Value, w2: Value, n3: nat, w3: Value)
    returns (n: nat, w: Value)
    requires w1.Clo?
    requires Iterate(d, s0, a) == Ok(State(Push(d, Push(d, stack, w1), w2), menv, [Apply] + k))
    requires Iterate(d, State(Push(d, stack, Clo(k, menv)), [w1, w2] + w1.env, w1.code), n3)
          == Ok(State(Push(d, Push(d, stack, Clo(k, menv)), w3), [w1, w2] + w1.env, [Return]))
    ensures Iterate(d, s0, n) == Ok(State(Push(d, stack, w3), menv, k)) && w == w3
  {
    CallNetEffect(d, stack, menv, k, w1, w2, n3, w3, [w1, w2] + w1.env);
    Chain(d, s0, a, State(Push(d, Push(d, stack, w1), w2), menv, [Apply] + k), n3 + 2);
    n, w := a + n3 + 2, w3;
  }

  /** Until the callee returns, the caller's run is the callee's run, one
      APPLY step later: a fault in the body is the fault of the call, and a
      body still running keeps the call running. */
  lemma CallBody(d: Discipline, s0: State, a: nat, stack: seq<Value>, menv: seq<Value>, k: seq<Cmd>,
                 w1: Value, w2: Value, n3: nat)
    returns (n: nat)
    requires w1.Clo?
    requires Iterate(d, s0, a) == Ok(State(Push(d, Push(d, stack, w1), w2), menv, [Apply] + k))
    ensures n == a + 1 + n3
    ensures Iterate(d, s0, n) == Iterate(d, State(Push(d, stack, Clo(k, menv)), [w1, w2] + w1.env, w1.code), n3)
  {
    CallEnters(d, s0, a, stack, menv, k, w1, w2);
    Chain(d, s0, a + 1, State(Push(d, stack, Clo(k, menv)), [w1, w2] + w1.env, w1.code), n3);
    n := a + 1 + n3;
  }

  /** APPLY enters the callee's code on top of the continuation. */
  lemma CallEnters(d: Discipline, s0: State, a: nat, stack: seq<Value>, menv: seq<Value>, k: seq<Cmd>,
                   w1: Value, w2: Value)
    requires w1.Clo?
    requires Iterate(d, s0, a) == Ok(State(Push(d, Push(d, stack, w1), w2), menv, [Apply] + k))
    ensures Iterate(d, s0, a + 1) == Ok(State(Push(d, stack, Clo(k, menv)), [w1, w2] + w1.env, w1.code))
  {
    CallReturn(d, stack, menv, k, w1, w2, w2, menv, []);
    StepAfter(d, s0, a, State(Push(d, Push(d, stack, w1), w2), menv, [Apply] + k));
  }
}
