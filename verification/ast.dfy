/** The input language: a call-by-value lambda calculus with 32-bit integers,
    booleans, operators, self-referential functions, `let` and conditionals. */
module Ast {

  const MinInt32: int := -0x8000_0000
  const MaxInt32: int := 0x7fff_ffff

  /** Rust's `i32`. */
  type Int32 = x: int | -0x8000_0000 <= x <= 0x7fff_ffff

  datatype Op1 = Neg | Not

  datatype Op2 = Add | Sub | Mul | Div | Lte | Gte | Lt | Gt | Eq | Neq | And | Or

  /** A finite tree; `Fun(f, x, m)` binds `f` (the function itself) and `x`
      (its parameter) in `m`, and `LetIn(x, m, n)` binds `x` in `n`. */
  datatype Term =
    | Int(i: Int32)
    | Bool(b: bool)
    | Var(x: string)
    | Op1(op1: Op1, m: Term)
    | Op2(op2: Op2, m: Term, n: Term)
    | Fun(f: string, x: string, m: Term)
    | App(m: Term, n: Term)
    | LetIn(x: string, m: Term, n: Term)
    | Ifte(c: Term, m: Term, n: Term)

  /** The variables of `t` not bound inside `t`. */
  function FreeVars(t: Term): set<string> {
    match t
    case Int(_) => {}
    case Bool(_) => {}
    case Var(x) => {x}
    case Op1(_, m) => FreeVars(m)
    case Op2(_, m, n) => FreeVars(m) + FreeVars(n)
    case Fun(f, x, m) => FreeVars(m) - {f, x}
    case App(m, n) => FreeVars(m) + FreeVars(n)
    case LetIn(x, m, n) => FreeVars(m) + (FreeVars(n) - {x})
    case Ifte(c, m, n) => FreeVars(c) + FreeVars(m) + FreeVars(n)
  }
}
