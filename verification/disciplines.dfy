/** The two copies of the machine agree. src/eval.rs keeps the top of the
    operand stack at the front, src/secd.rs at the end; reading one stack
    backwards gives the other, and under that correspondence every step,
    every run and every final answer coincide. */
module Disciplines {
  import opened Faults
  import opened Bytecode
  import opened Machine
  import Ast
  import Compiler

  /** The stack read from the other end. */
  function Rev(st: seq<Value>): (r: seq<Value>)
    ensures |r| == |st|
  {
    if st == [] then [] else Rev(st[1..]) + [st[0]]
  }

  /** A state of the src/eval.rs machine as the src/secd.rs machine holds it. */
  function Flip(s: State): State {
    State(Rev(s.stack), s.env, s.code)
  }

  function FlipResult(r: Result<State>): Result<State> {
    match r
    case Ok(s) => Ok(Flip(s))
    case Err(e) => Err(e)
  }

  /** Pushing at the end is pushing at the front, read backwards. */
  lemma PushFlip(st: seq<Value>, v: Value)
    ensures Push(TopAtEnd, Rev(st), v) == Rev(Push(TopAtFront, st, v))
  {
    assert ([v] + st)[1..] == st;
  }

  /** Popping from the end is popping from the front, read backwards. */
  lemma PopFlip(st: seq<Value>)
    ensures Pop(TopAtFront, st).Err? ==> Pop(TopAtEnd, Rev(st)) == Pop(TopAtFront, st)
    ensures Pop(TopAtFront, st).Ok? ==>
      Pop(TopAtEnd, Rev(st)) == Ok((Pop(TopAtFront, st).value.0, Rev(Pop(TopAtFront, st).value.1)))
  {
    if st != [] {
      var r := Rev(st);
      assert r == Rev(st[1..]) + [st[0]];
      assert r[..|r| - 1] == Rev(st[1..]);
    }
  }

  /** Two pops, as APPLY, RETURN and the binary instructions do them. */
  lemma PopPopFlip(st: seq<Value>)
    requires |st| >= 2
    ensures var p1 := Pop(TopAtEnd, Rev(st)).value;
      && p1 == (st[0], Rev(st[1..]))
      && Pop(TopAtEnd, p1.1) == Ok((st[1], Rev(st[2..])))
  {
    PopFlip(st);
    PopFlip(st[1..]);
    assert st[1..][1..] == st[2..];
  }

  lemma StepUnaryFlip(c: Cmd, st: seq<Value>, env: seq<Value>, k: seq<Cmd>)
    requires c.IsUnary()
    ensures StepUnary(TopAtEnd, c, Rev(st), env, k) == FlipResult(StepUnary(TopAtFront, c, st, env, k))
  {
    PopFlip(st);
    if st != [] {
      var u := Unary(c, st[0]);
      if u.Ok? {
        PushFlip(st[1..], u.value);
      }
    }
  }

  lemma StepBinaryFlip(c: Cmd, st: seq<Value>, env: seq<Value>, k: seq<Cmd>)
    requires c.IsBinary()
    ensures StepBinary(TopAtEnd, c, Rev(st), env, k) == FlipResult(StepBinary(TopAtFront, c, st, env, k))
  {
    PopFlip(st);
    if |st| >= 2 {
      PopPopFlip(st);
      var b := Binary(c, st[1], st[0]);
      if b.Ok? {
        PushFlip(st[2..], b.value);
      }
    } else if |st| == 1 {
      PopFlip(st[1..]);
    }
  }

  lemma StepIfteFlip(st: seq<Value>, env: seq<Value>, c1: seq<Cmd>, c2: seq<Cmd>, k: seq<Cmd>)
    ensures StepIfte(TopAtEnd, Rev(st), env, c1, c2, k) == FlipResult(StepIfte(TopAtFront, st, env, c1, c2, k))
  {
    PopFlip(st);
  }

  lemma StepLetFlip(st: seq<Value>, env: seq<Value>, k: seq<Cmd>)
    ensures StepLet(TopAtEnd, Rev(st), env, k) == FlipResult(StepLet(TopAtFront, st, env, k))
  {
    PopFlip(st);
  }

  lemma StepApplyFlip(st: seq<Value>, env: seq<Value>, k: seq<Cmd>)
    ensures StepApply(TopAtEnd, Rev(st), env, k) == FlipResult(StepApply(TopAtFront, st, env, k))
  {
    PopFlip(st);
    if |st| >= 2 {
      PopPopFlip(st);
      PushFlip(st[2..], Clo(k, env));
    } else if |st| == 1 {
      PopFlip(st[1..]);
    }
  }

  lemma StepReturnFlip(st: seq<Value>, env: seq<Value>, k: seq<Cmd>)
    ensures StepReturn(TopAtEnd, Rev(st), env, k) == FlipResult(StepReturn(TopAtFront, st, env, k))
  {
    PopFlip(st);
    if |st| >= 2 {
      PopPopFlip(st);
      PushFlip(st[2..], st[0]);
    } else if |st| == 1 {
      PopFlip(st[1..]);
    }
  }

  /** One step of the src/secd.rs machine on the flipped state is the
      flipped step of the src/eval.rs machine. */
  lemma StepAgrees(s: State)
    requires s.code != []
    ensures Step(TopAtEnd, Flip(s)) == FlipResult(Step(TopAtFront, s))
  {
    if s.code[0].IsUnary() {
      UnaryStepAgrees(s);
    } else if s.code[0].IsBinary() {
      BinaryStepAgrees(s);
    } else {
      OtherStepAgrees(s);
    }
  }

  lemma UnaryStepAgrees(s: State)
    requires s.code != [] && s.code[0].IsUnary()
    ensures Step(TopAtEnd, Flip(s)) == FlipResult(Step(TopAtFront, s))
  {
    StepUnaryFlip(s.code[0], s.stack, s.env, s.code[1..]);
  }

  lemma BinaryStepAgrees(s: State)
    requires s.code != [] && s.code[0].IsBinary()
    ensures Step(TopAtEnd, Flip(s)) == FlipResult(Step(TopAtFront, s))
  {
    StepBinaryFlip(s.code[0], s.stack, s.env, s.code[1..]);
  }

  lemma OtherStepAgrees(s: State)
    requires s.code != [] && !s.code[0].IsUnary() && !s.code[0].IsBinary()
    ensures Step(TopAtEnd, Flip(s)) == FlipResult(Step(TopAtFront, s))
  {
    var c, k := s.code[0], s.code[1..];
    match c
    case PushInt(i) => PushFlip(s.stack, Int(i));
    case PushBool(b) => PushFlip(s.stack, Bool(b));
    case Access(i) => if i < |s.env| { PushFlip(s.stack, s.env[i]); }
    case Closure(body) => PushFlip(s.stack, Clo(body, s.env));
    case Ifte(c1, c2) => StepIfteFlip(s.stack, s.env, c1, c2, k);
    case Let => StepLetFlip(s.stack, s.env, k);
    case EndLet =>
    case Apply => StepApplyFlip(s.stack, s.env, k);
    case Return => StepReturnFlip(s.stack, s.env, k);
  }

  /** Runs of any length agree. */
  lemma {:induction false} IterateAgrees(s: State, n: nat)
    ensures Iterate(TopAtEnd, Flip(s), n) == FlipResult(Iterate(TopAtFront, s, n))
    decreases n
  {
    if n > 0 && s.code != [] {
      StepAgrees(s);
      var r := Step(TopAtFront, s);
      if r.Ok? {
        IterateAgrees(r.value, n - 1);
      }
    }
  }

  /** Both machines give the same answer from corresponding states. */
  lemma ExecuteAgrees(s: State, fuel: nat)
    ensures Execute(TopAtEnd, Flip(s), fuel) == Execute(TopAtFront, s, fuel)
  {
    IterateAgrees(s, fuel);
    var r := Iterate(TopAtFront, s, fuel);
    if r.Ok? {
      PopFlip(r.value.stack);
    }
  }

  /** `Term::run` of src/eval.rs and of src/secd.rs compute the same answer
      for every program: the same value, or the same fault. */
  lemma EvaluateAgrees(t: Ast.Term, fuel: nat)
    ensures Evaluate(TopAtEnd, t, fuel) == Evaluate(TopAtFront, t, fuel)
  {
    var compiled := Compiler.Compile(t, []);
    if compiled.Ok? {
      ExecuteAgrees(State([], [], compiled.value), fuel);
    }
  }
}
