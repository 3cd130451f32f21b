/** A reference semantics for the source language, independent of the
    compiler and the machine: a big-step evaluator over named bindings.
    Function values are closures that remember their binder names, body
    term and defining environment; a call binds the function itself and
    then its argument in front of that environment, which is how a
    function refers to itself by name. Calls consume fuel so that the
    evaluator is total even on programs that do not terminate. */
module Reference {
  import opened Faults
  import opened Ast
  import Arith

  datatype RValue =
    | RInt(i: Int32)
    | RBool(b: bool)
    | RClo(self: string, param: string, body: Term, env: seq<Binding>)

  /** `env[0]` is the innermost binding. */
  datatype Binding = Binding(name: string, value: RValue)

  /** The value of the innermost binding of `x`. */
  function Lookup(x: string, env: seq<Binding>): (r: Result<RValue>)
    ensures r.Err? <==> forall j :: 0 <= j < |env| ==> env[j].name != x
    ensures r.Err? ==> r.error == UnboundVariable(x)
  {
    if env == [] then Err(UnboundVariable(x))
    else if env[0].name == x then Ok(env[0].value)
    else
      assert forall j :: 1 <= j < |env| ==> env[j] == env[1..][j - 1];
      Lookup(x, env[1..])
  }

  function EvalOp1(op: Op1, v: RValue): Result<RValue> {
    match op
    case Neg =>
      if v.RInt? then (var n :- Arith.Neg(v.i); Ok(RInt(n))) else Err(TypeMismatch)
    case Not =>
      if v.RBool? then Ok(RBool(!v.b)) else Err(TypeMismatch)
  }

  /** Integer operators need two integers, `&&` and `||` two booleans. */
  function EvalOp2(op: Op2, l: RValue, r: RValue): Result<RValue> {
    if op == And || op == Or then
      if l.RBool? && r.RBool? then Ok(RBool(if op == And then l.b && r.b else l.b || r.b))
      else Err(TypeMismatch)
    else if !(l.RInt? && r.RInt?) then Err(TypeMismatch)
    else
      var a, b := l.i, r.i;
      match op
      case Add => var n :- Arith.Add(a, b); Ok(RInt(n))
      case Sub => var n :- Arith.Sub(a, b); Ok(RInt(n))
      case Mul => var n :- Arith.Mul(a, b); Ok(RInt(n))
      case Div => var n :- Arith.Div(a, b); Ok(RInt(n))
      case Lte => Ok(RBool(a <= b))
      case Gte => Ok(RBool(a >= b))
      case Lt => Ok(RBool(a < b))
      case Gt => Ok(RBool(a > b))
      case Eq => Ok(RBool(a == b))
      case Neq => Ok(RBool(a != b))
  }

  /** Left-to-right, call-by-value evaluation; both operands of `&&` and `||`
      are evaluated. */
  function Eval(fuel: nat, t: Term, env: seq<Binding>): (r: Result<RValue>)
    ensures r.Err? ==> !r.error.IsMachineOnly()
    decreases fuel, t
  {
    match t
    case Int(i) => Ok(RInt(i))
    case Bool(b) => Ok(RBool(b))
    case Var(x) => Lookup(x, env)
    case Op1(op, m) =>
      var v :- Eval(fuel, m, env);
      EvalOp1(op, v)
    case Op2(op, m, n) =>
      var l :- Eval(fuel, m, env);
      var r :- Eval(fuel, n, env);
      EvalOp2(op, l, r)
    case Fun(f, x, m) => Ok(RClo(f, x, m, env))
    case App(m, n) =>
      var fv :- Eval(fuel, m, env);
      var a :- Eval(fuel, n, env);
      if !fv.RClo? then Err(NotCallable)
      else if fuel == 0 then Err(OutOfFuel)
      else Eval(fuel - 1, fv.body, [Binding(fv.self, fv), Binding(fv.param, a)] + fv.env)
    case LetIn(x, m, n) =>
      var v :- Eval(fuel, m, env);
      Eval(fuel, n, [Binding(x, v)] + env)
    case Ifte(c, m, n) =>
      var b :- Eval(fuel, c, env);
      if !b.RBool? then Err(TypeMismatch)
      else if b.b then Eval(fuel, m, env)
      else Eval(fuel, n, env)
  }
}
