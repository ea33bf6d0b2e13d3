/** Abstract syntax of the part of Humus whose code is generated without closures. */
module HumusSyntax {
  import opened Prelude

  datatype Constant = Int(n: int) | True | False | Undef | Nil | Symbol(text: string)

  datatype Expr =
    | ConstExpr(value: Constant)
    | IdentExpr(ident: string)
    | PairExpr(head: Expr, tail: Expr)
    | IfExpr(left: Ptrn, right: Ptrn, expr: Expr, next: Expr)
    | CaseExpr(subject: Expr, choice: Choice)

  datatype Choice =
    | CaseEnd
    | CaseChoice(ptrn: Ptrn, expr: Expr, next: Choice)

  datatype Ptrn =
    | AnyPtrn
    | IdentPtrn(ident: string)
    | ConstPtrn(value: Constant)
    | PairPtrn(head: Ptrn, tail: Ptrn)
    | ValuePtrn(expr: Expr)

  datatype Stmt =
    | DefStmt(ptrn: Ptrn, expr: Expr)
    | LetStmt(left: Ptrn, right: Ptrn)
    | SendStmt(msg: Expr, to: Expr)
    | ThrowStmt(expr: Expr)
    | StmtPair(head: Stmt, tail: Stmt)
    | EmptyStmt

  // ----- Sizes, because `solve` builds expressions that are not subterms -----

  function ExprSize(e: Expr): nat {
    match e
    case ConstExpr(_) => 1
    case IdentExpr(_) => 1
    case PairExpr(h, t) => 1 + ExprSize(h) + ExprSize(t)
    case IfExpr(l, r, x, n) => 1 + PtrnSize(l) + PtrnSize(r) + ExprSize(x) + ExprSize(n)
    case CaseExpr(s, c) => 1 + ExprSize(s) + ChoiceSize(c)
  }

  function ChoiceSize(c: Choice): nat {
    match c
    case CaseEnd => 1
    case CaseChoice(p, x, n) => 1 + PtrnSize(p) + ExprSize(x) + ChoiceSize(n)
  }

  function PtrnSize(p: Ptrn): nat {
    match p
    case AnyPtrn => 1
    case IdentPtrn(_) => 1
    case ConstPtrn(_) => 1
    case PairPtrn(h, t) => 1 + PtrnSize(h) + PtrnSize(t)
    case ValuePtrn(x) => 1 + ExprSize(x)
  }

  function StmtSize(s: Stmt): nat {
    match s
    case DefStmt(p, e) => 2 + PtrnSize(p) + ExprSize(e)
    case LetStmt(l, r) => 3 + PtrnSize(l) + PtrnSize(r)
    case SendStmt(m, t) => 1 + ExprSize(m) + ExprSize(t)
    case ThrowStmt(e) => 1 + ExprSize(e)
    case StmtPair(h, t) => 1 + StmtSize(h) + StmtSize(t)
    case EmptyStmt => 1
  }

  // ----- Equations -----

  /** The expression a pattern amounts to, if it has no variable and no wildcard. */
  function ToExpr(p: Ptrn): (r: Option<Expr>)
    ensures r.Some? ==> ExprSize(r.value) <= PtrnSize(p)
  {
    match p
    case ConstPtrn(c) => Some(ConstExpr(c))
    case PairPtrn(h, t) =>
      (match (ToExpr(h), ToExpr(t))
       case (Some(eh), Some(et)) => Some(PairExpr(eh, et))
       case _ => None)
    case ValuePtrn(e) => Some(e)
    case _ => None
  }

  /** Turns an equation into a pattern and the expression to match it against. */
  function Solve(left: Ptrn, right: Ptrn): (r: Option<(Ptrn, Expr)>)
    ensures r.Some? ==> PtrnSize(r.value.0) + ExprSize(r.value.1) <= PtrnSize(left) + PtrnSize(right)
  {
    if left.PairPtrn? && right.PairPtrn? then
      match (Solve(left.head, right.head), Solve(left.tail, right.tail))
      case (Some((hp, he)), Some((tp, te))) => Some((PairPtrn(hp, tp), PairExpr(he, te)))
      case _ => None
    else if ToExpr(right).Some? then Some((left, ToExpr(right).value))
    else if ToExpr(left).Some? then Some((right, ToExpr(left).value))
    else None
  }
}
