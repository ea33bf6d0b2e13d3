/**
 Which names a statement defines and which it leaves free, as the sorting of a block sees
 it, and which names it uses, as the code generator does.
 */
module HumusAnalysis {
  import opened Prelude
  import opened HumusSyntax
  import opened HumusMachine
  import opened HumusEval
  import opened HumusEnv
  import opened HumusSort

  // ----- What the visit of a statement finds -----

  /** The names that are free where no scope has defined them, visiting from left to right. */
  function ExprFree(e: Expr, bound: set<string>): set<string>
    decreases ExprSize(e)
  {
    match e
    case ConstExpr(_) => {}
    case IdentExpr(x) => {x} - bound
    case PairExpr(h, t) => ExprFree(h, bound) + ExprFree(t, bound)
    case IfExpr(l, r, x, n) =>
      PtrnFree(l, bound) + PtrnFree(r, bound + Names(l)) + ExprFree(x, bound + Names(l) + Names(r)) + ExprFree(n, bound)
    case CaseExpr(s, c) => ExprFree(s, bound) + ChoiceFree(c, bound)
  }

  function PtrnFree(p: Ptrn, bound: set<string>): set<string>
    decreases PtrnSize(p)
  {
    match p
    case PairPtrn(h, t) => PtrnFree(h, bound) + PtrnFree(t, bound + Names(h))
    case ValuePtrn(e) => ExprFree(e, bound)
    case _ => {}
  }

  function ChoiceFree(c: Choice, bound: set<string>): set<string>
    decreases ChoiceSize(c)
  {
    match c
    case CaseEnd => {}
    case CaseChoice(p, x, n) => PtrnFree(p, bound) + ExprFree(x, bound + Names(p)) + ChoiceFree(n, bound)
  }

  function Analyze(s: Stmt): Analysis {
    match s
    case DefStmt(p, e) => Analysis(Names(p), PtrnFree(p, {}) + ExprFree(e, Names(p)))
    case LetStmt(l, r) => Analysis(Names(l) + Names(r), PtrnFree(l, {}) + PtrnFree(r, Names(l)))
    case SendStmt(m, t) => Analysis({}, ExprFree(m, {}) + ExprFree(t, {}))
    case ThrowStmt(e) => Analysis({}, ExprFree(e, {}))
    case _ => Analysis({}, {})
  }

  function Analyses(stmts: seq<Stmt>): seq<Analysis> {
    seq(|stmts|, i requires 0 <= i < |stmts| => Analyze(stmts[i]))
  }

  // ----- What the code generator needs -----

  function ExprUses(e: Expr): set<string>
    decreases ExprSize(e)
  {
    match e
    case ConstExpr(_) => {}
    case IdentExpr(x) => {x}
    case PairExpr(h, t) => ExprUses(h) + ExprUses(t)
    case IfExpr(l, r, x, n) =>
      (match Solve(l, r)
       case None => {}
       case Some((p, arg)) => ExprUses(arg) + PtrnUses(p) + (ExprUses(x) - Names(p)) + ExprUses(n))
    case CaseExpr(s, c) => ExprUses(s) + ChoiceUses(c)
  }

  function PtrnUses(p: Ptrn): set<string>
    decreases PtrnSize(p)
  {
    match p
    case PairPtrn(h, t) => PtrnUses(h) + PtrnUses(t)
    case ValuePtrn(e) => ExprUses(e)
    case _ => {}
  }

  function ChoiceUses(c: Choice): set<string>
    decreases ChoiceSize(c)
  {
    match c
    case CaseEnd => {}
    case CaseChoice(p, x, n) => PtrnUses(p) + (ExprUses(x) - Names(p)) + ChoiceUses(n)
  }

  /** Equations have solutions and patterns do not repeat names, wherever the names are bound. */
  predicate ExprSound(e: Expr)
    decreases ExprSize(e)
  {
    match e
    case ConstExpr(_) => true
    case IdentExpr(x) => x != "_"
    case PairExpr(h, t) => ExprSound(h) && ExprSound(t)
    case IfExpr(l, r, x, n) =>
      && Solve(l, r).Some?
      && var (p, arg) := Solve(l, r).value;
      && NoRepeats(PtrnIdents(p)) && ExprSound(arg) && PtrnSound(p) && ExprSound(x) && ExprSound(n)
    case CaseExpr(s, c) => ExprSound(s) && ChoiceSound(c)
  }

  predicate PtrnSound(p: Ptrn)
    decreases PtrnSize(p)
  {
    match p
    case PairPtrn(h, t) => PtrnSound(h) && PtrnSound(t)
    case ValuePtrn(e) => ExprSound(e)
    case _ => true
  }

  predicate ChoiceSound(c: Choice)
    decreases ChoiceSize(c)
  {
    match c
    case CaseEnd => true
    case CaseChoice(p, x, n) => NoRepeats(PtrnIdents(p)) && PtrnSound(p) && ExprSound(x) && ChoiceSound(n)
  }

  lemma Without(a: set<string>, b: set<string>, c: set<string>, d: set<string>)
    ensures a <= b + c + d <==> a - b <= c + d
  {
    if a - b <= c + d {
      forall x <- a ensures x in b + c + d {
        assert x in b || x in a - b;
      }
    }
  }

  /** An expression is in scope if it is sound and every name it uses is known. */
  lemma {:induction false} ExprScoped(globals: Bindings, known: set<string>, e: Expr)
    ensures Scoped(globals, known, e) <==> ExprSound(e) && ExprUses(e) <= known + globals.Keys
    decreases ExprSize(e)
  {
    match e
    case PairExpr(h, t) =>
      ExprScoped(globals, known, h);
      ExprScoped(globals, known, t);
    case IfExpr(l, r, x, n) =>
      if Solve(l, r).Some? {
        var (p, arg) := Solve(l, r).value;
        ExprScoped(globals, known, arg);
        PtrnInScope(globals, known, p);
        ExprScoped(globals, Names(p) + known, x);
        ExprScoped(globals, known, n);
        Without(ExprUses(x), Names(p), known, globals.Keys);
      }
    case CaseExpr(s, c) =>
      ExprScoped(globals, known, s);
      ChoiceInScope(globals, known, c);
    case _ =>
  }

  lemma {:induction false} PtrnInScope(globals: Bindings, known: set<string>, p: Ptrn)
    ensures PtrnScoped(globals, known, p) <==> PtrnSound(p) && PtrnUses(p) <= known + globals.Keys
    decreases PtrnSize(p)
  {
    match p
    case PairPtrn(h, t) =>
      PtrnInScope(globals, known, h);
      PtrnInScope(globals, known, t);
    case ValuePtrn(e) => ExprScoped(globals, known, e);
    case _ =>
  }

  lemma {:induction false} ChoiceInScope(globals: Bindings, known: set<string>, c: Choice)
    ensures ChoiceScoped(globals, known, c) <==> ChoiceSound(c) && ChoiceUses(c) <= known + globals.Keys
    decreases ChoiceSize(c)
  {
    match c
    case CaseEnd =>
    case CaseChoice(p, x, n) =>
      PtrnInScope(globals, known, p);
      ExprScoped(globals, Names(p) + known, x);
      ChoiceInScope(globals, known, n);
      Without(ExprUses(x), Names(p), known, globals.Keys);
  }

  // ----- Statements -----

  function StmtUses(s: Stmt): set<string> {
    match s
    case DefStmt(p, e) => ExprUses(e) + PtrnUses(p)
    case LetStmt(l, r) =>
      (match Solve(l, r) case None => {} case Some((p, e)) => ExprUses(e) + PtrnUses(p))
    case SendStmt(m, t) => ExprUses(m) + ExprUses(t)
    case ThrowStmt(e) => ExprUses(e)
    case _ => {}
  }

  predicate StmtSound(s: Stmt) {
    match s
    case DefStmt(p, e) => NoRepeats(PtrnIdents(p)) && ExprSound(e) && PtrnSound(p)
    case LetStmt(l, r) =>
      Solve(l, r).Some?
      && var (p, e) := Solve(l, r).value; NoRepeats(PtrnIdents(p)) && ExprSound(e) && PtrnSound(p)
    case SendStmt(m, t) => ExprSound(m) && ExprSound(t)
    case ThrowStmt(e) => ExprSound(e)
    case _ => true
  }

  lemma StmtInScope(globals: Bindings, known: set<string>, s: Stmt)
    requires !s.StmtPair?
    ensures StmtScoped(globals, known, s) <==> StmtSound(s) && StmtUses(s) <= known + globals.Keys
  {
    match s
    case DefStmt(p, e) =>
      ExprScoped(globals, known, e);
      PtrnInScope(globals, known, p);
    case LetStmt(l, r) =>
      if Solve(l, r).Some? {
        ExprScoped(globals, known, Solve(l, r).value.1);
        PtrnInScope(globals, known, Solve(l, r).value.0);
      }
    case SendStmt(m, t) =>
      ExprScoped(globals, known, m);
      ExprScoped(globals, known, t);
    case ThrowStmt(e) => ExprScoped(globals, known, e);
    case _ =>
  }

  /** A side without an expression has all the names of a solved equation. */
  lemma {:induction false} ClosedHasNoNames(p: Ptrn)
    requires ToExpr(p).Some?
    ensures Names(p) == {}
  {
    if p.PairPtrn? {
      ClosedHasNoNames(p.head);
      ClosedHasNoNames(p.tail);
    }
  }

  /** Solving an equation keeps its names. */
  lemma {:induction false} SolveNames(left: Ptrn, right: Ptrn)
    requires Solve(left, right).Some?
    ensures Names(Solve(left, right).value.0) == Names(left) + Names(right)
  {
    if left.PairPtrn? && right.PairPtrn? {
      SolveNames(left.head, right.head);
      SolveNames(left.tail, right.tail);
    } else if ToExpr(right).Some? {
      ClosedHasNoNames(right);
    } else {
      ClosedHasNoNames(left);
    }
  }

  /** Sorting and generating code agree on what a sound statement defines. */
  lemma DefinesSame(s: Stmt)
    requires !s.StmtPair? && StmtSound(s)
    ensures Analyze(s).define == DefinedBy(s)
  {
    if s.LetStmt? { SolveNames(s.left, s.right); }
  }
}
