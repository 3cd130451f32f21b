/** `Term::compile` (src/eval.rs, duplicated verbatim in src/secd.rs): lowers a
    term to instructions, resolving each variable to its position in the
    compile-time name list. `names[0]` is the most recently bound name, so
    positions line up with the run-time environment, whose front is also
    the most recent binding. */
module Compiler {
  import opened Faults
  import opened Ast
  import opened Bytecode

  /** `names.index_of(x).unwrap()`: the position of the innermost binding of
      `x`, or the unbound-variable fault when `names` does not mention `x`. */
  function Resolve(x: string, names: seq<string>): (r: Result<nat>)
    ensures r.Ok? <==> x in names
    ensures r.Ok? ==> r.value < |names| && names[r.value] == x
    ensures r.Ok? ==> forall j :: 0 <= j < r.value ==> names[j] != x
    ensures r.Err? ==> r.error == UnboundVariable(x)
  {
    if names == [] then Err(UnboundVariable(x))
    else if names[0] == x then Ok(0)
    else
      var i :- Resolve(x, names[1..]);
      Ok(i + 1)
  }

  function Compile(t: Term, names: seq<string>): (r: Result<seq<Cmd>>)
    ensures r.Ok? <==> FreeVars(t) <= set y | y in names
    ensures r.Err? ==> r.error.UnboundVariable? && r.error.name in FreeVars(t) && r.error.name !in names
  {
    match t
    case Int(i) => Ok([PushInt(i)])
    case Bool(b) => Ok([PushBool(b)])
    case Var(x) =>
      var i :- Resolve(x, names);
      Ok([Access(i)])
    case Op1(op, m) =>
      var cm :- Compile(m, names);
      Ok(cm + [Op1Cmd(op)])
    case Op2(op, m, n) =>
      var cm :- Compile(m, names);
      var cn :- Compile(n, names);
      Ok(cm + cn + [Op2Cmd(op)])
    case Fun(f, x, m) =>
      assert (set y | y in [f, x] + names) == {f, x} + (set y | y in names);
      var cm :- Compile(m, [f, x] + names);
      Ok([Closure(cm + [Return])])
    case App(m, n) =>
      var cm :- Compile(m, names);
      var cn :- Compile(n, names);
      Ok(cm + cn + [Apply])
    case LetIn(x, m, n) =>
      var cm :- Compile(m, names);
      assert (set y | y in [x] + names) == {x} + (set y | y in names);
      var cn :- Compile(n, [x] + names);
      Ok(cm + [Let] + cn + [EndLet])
    case Ifte(c, m, n) =>
      var cc :- Compile(c, names);
      var cm :- Compile(m, names);
      var cn :- Compile(n, names);
      Ok(cc + [Cmd.Ifte(cm, cn)])
  }

  /** A variable becomes ACCESS of the position of its innermost binding. */
  lemma CompileVar(x: string, names: seq<string>, i: nat)
    requires i < |names| && names[i] == x
    requires forall j :: 0 <= j < i ==> names[j] != x
    ensures Compile(Var(x), names) == Ok([Access(i)])
  {
  }

  /** A variable with no binding is the unbound-variable fault. */
  lemma CompileUnbound(x: string, names: seq<string>)
    requires x !in names
    ensures Compile(Var(x), names) == Err(UnboundVariable(x))
  {
  }

  // The lemmas below take a compiled compound term apart: its parts
  // compile under the names the source gives them, and the code is laid
  // out left to right as shown.

  lemma CompileOp1(t: Term, names: seq<string>, code: seq<Cmd>) returns (cm: seq<Cmd>)
    requires t.Op1? && Compile(t, names) == Ok(code)
    ensures Compile(t.m, names) == Ok(cm) && code == cm + [Op1Cmd(t.op1)]
  {
    cm := Compile(t.m, names).value;
  }

  /** Both operands are compiled, left first: `&&` and `||` do not short-circuit. */
  lemma CompileOp2(t: Term, names: seq<string>, code: seq<Cmd>) returns (cm1: seq<Cmd>, cm2: seq<Cmd>)
    requires t.Op2? && Compile(t, names) == Ok(code)
    ensures Compile(t.m, names) == Ok(cm1) && Compile(t.n, names) == Ok(cm2)
    ensures code == cm1 + cm2 + [Op2Cmd(t.op2)]
  {
    cm1, cm2 := Compile(t.m, names).value, Compile(t.n, names).value;
  }

  /** A function is one CLOSURE instruction whose code is the body, compiled
      with the function's own name at position 0 and its parameter at
      position 1, followed by RETURN. */
  lemma CompileFun(t: Term, names: seq<string>, code: seq<Cmd>) returns (cm: seq<Cmd>)
    requires t.Fun? && Compile(t, names) == Ok(code)
    ensures Compile(t.m, [t.f, t.x] + names) == Ok(cm) && code == [Closure(cm + [Return])]
  {
    cm := Compile(t.m, [t.f, t.x] + names).value;
  }

  lemma CompileApp(t: Term, names: seq<string>, code: seq<Cmd>) returns (cm1: seq<Cmd>, cm2: seq<Cmd>)
    requires t.App? && Compile(t, names) == Ok(code)
    ensures Compile(t.m, names) == Ok(cm1) && Compile(t.n, names) == Ok(cm2)
    ensures code == cm1 + cm2 + [Apply]
  {
    cm1, cm2 := Compile(t.m, names).value, Compile(t.n, names).value;
  }

  /** The body of a `let` is compiled with the bound name in front, between LET and ENDLET. */
  lemma CompileLet(t: Term, names: seq<string>, code: seq<Cmd>) returns (cm1: seq<Cmd>, cm2: seq<Cmd>)
    requires t.LetIn? && Compile(t, names) == Ok(code)
    ensures Compile(t.m, names) == Ok(cm1) && Compile(t.n, [t.x] + names) == Ok(cm2)
    ensures code == cm1 + [Let] + cm2 + [EndLet]
  {
    cm1, cm2 := Compile(t.m, names).value, Compile(t.n, [t.x] + names).value;
  }

  lemma CompileIfte(t: Term, names: seq<string>, code: seq<Cmd>) returns (cc: seq<Cmd>, cm1: seq<Cmd>, cm2: seq<Cmd>)
    requires t.Ifte? && Compile(t, names) == Ok(code)
    ensures Compile(t.c, names) == Ok(cc)
    ensures Compile(t.m, names) == Ok(cm1) && Compile(t.n, names) == Ok(cm2)
    ensures code == cc + [Cmd.Ifte(cm1, cm2)]
  {
    cc := Compile(t.c, names).value;
    cm1, cm2 := Compile(t.m, names).value, Compile(t.n, names).value;
  }
}
