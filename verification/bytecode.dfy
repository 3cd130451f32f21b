/** The instruction set the compiler emits and the machine runs (`CMD` in
    src/eval.rs, `Cmd` in src/secd.rs). `Closure` and `Ifte` carry nested code. */
module Bytecode {
  import opened Ast

  datatype Cmd =
    | PushInt(i: Int32)
    | PushBool(b: bool)
    | Add | Sub | Mul | Div
    | Lte | Gte | Lt | Gt | Eq | Neq
    | And | Or
    | Neg | Not
    | Access(index: nat)
    | Closure(body: seq<Cmd>)
    | Ifte(thenCode: seq<Cmd>, elseCode: seq<Cmd>)
    | Let
    | EndLet
    | Apply
    | Return
  {
    /** The twelve two-operand instructions. */
    predicate IsBinary() {
      Add? || Sub? || Mul? || Div? || Lte? || Gte? || Lt? || Gt? || Eq? || Neq? || And? || Or?
    }

    /** The two one-operand instructions. */
    predicate IsUnary() {
      Neg? || Not?
    }
  }

  /** Net change in operand-stack height when the instruction succeeds:
      pushes add one; each pop removes one; APPLY and RETURN each pop two
      entries and push one (the continuation, resp. the result). */
  function StackEffect(c: Cmd): int {
    if c.PushInt? || c.PushBool? || c.Access? || c.Closure? then 1
    else if c.IsUnary() || c.EndLet? then 0
    else -1   // the binary instructions, IFTE, LET, APPLY and RETURN
  }

  /** `Op1::compile`. */
  function Op1Cmd(op: Op1): (c: Cmd)
    ensures c.IsUnary()
    ensures UnaryOp(c) == op
  {
    match op
    case Neg => Cmd.Neg
    case Not => Cmd.Not
  }

  /** The operator a one-operand instruction came from. */
  function UnaryOp(c: Cmd): Op1
    requires c.IsUnary()
  {
    if c.Neg? then Op1.Neg else Op1.Not
  }

  /** `Op2::compile`. */
  function Op2Cmd(op: Op2): (c: Cmd)
    ensures c.IsBinary()
    ensures BinaryOp(c) == op
  {
    match op
    case Add => Cmd.Add
    case Sub => Cmd.Sub
    case Mul => Cmd.Mul
    case Div => Cmd.Div
    case Lte => Cmd.Lte
    case Gte => Cmd.Gte
    case Lt => Cmd.Lt
    case Gt => Cmd.Gt
    case Eq => Cmd.Eq
    case Neq => Cmd.Neq
    case And => Cmd.And
    case Or => Cmd.Or
  }

  /** The operator a two-operand instruction came from. */
  function BinaryOp(c: Cmd): Op2
    requires c.IsBinary()
  {
    match c
    case Add => Op2.Add
    case Sub => Op2.Sub
    case Mul => Op2.Mul
    case Div => Op2.Div
    case Lte => Op2.Lte
    case Gte => Op2.Gte
    case Lt => Op2.Lt
    case Gt => Op2.Gt
    case Eq => Op2.Eq
    case Neq => Op2.Neq
    case And => Op2.And
    case Or => Op2.Or
  }

  /** Every operator maps to its own instruction and every operator
      instruction comes from exactly one operator. */
  lemma OperatorsBijective(c: Cmd)
    ensures c.IsBinary() ==> Op2Cmd(BinaryOp(c)) == c
    ensures c.IsUnary() ==> Op1Cmd(UnaryOp(c)) == c
    ensures forall a: Op2, b: Op2 :: Op2Cmd(a) == Op2Cmd(b) ==> a == b
    ensures forall a: Op1, b: Op1 :: Op1Cmd(a) == Op1Cmd(b) ==> a == b
  {
  }
}
