/**
 A direct evaluator for Humus: names are looked up in a map, patterns are matched
 against values, and no stack, path or code is involved. It is the reference the
 generated code is compared with.
 */
module HumusEval {
  import opened Prelude
  import opened HumusSyntax
  import opened HumusMachine

  type Bindings = map<string, Value>

  /** What a pattern binds when it is laid over a value; heads win over tails. */
  function Bind(p: Ptrn, v: Value): Bindings {
    match p
    case IdentPtrn(x) => map[x := v]
    case PairPtrn(h, t) => Bind(t, TailOf(v)) + Bind(h, HeadOf(v))
    case _ => map[]
  }

  /** The value of an expression, given the module's own names and the local ones. */
  function Eval(globals: Bindings, rho: Bindings, e: Expr): Value
    decreases ExprSize(e), 0
  {
    match e
    case ConstExpr(c) => Atom(c)
    case IdentExpr(x) => if x in rho then rho[x] else if x in globals then globals[x] else UndefV
    case PairExpr(h, t) => PairV(Eval(globals, rho, h), Eval(globals, rho, t))
    case IfExpr(l, r, x, n) =>
      (match Solve(l, r)
       case None => UndefV
       case Some((p, arg)) =>
         var v := Eval(globals, rho, arg);
         if Matches(globals, rho, p, v) then Eval(globals, rho + Bind(p, v), x) else Eval(globals, rho, n))
    case CaseExpr(s, c) => Choose(globals, rho, c, Eval(globals, rho, s))
  }

  function Choose(globals: Bindings, rho: Bindings, c: Choice, v: Value): Value
    decreases ChoiceSize(c), 0
  {
    match c
    case CaseEnd => UndefV
    case CaseChoice(p, x, n) =>
      if Matches(globals, rho, p, v) then Eval(globals, rho + Bind(p, v), x) else Choose(globals, rho, n, v)
  }

  predicate Matches(globals: Bindings, rho: Bindings, p: Ptrn, v: Value)
    decreases PtrnSize(p), 0
  {
    match p
    case AnyPtrn => true
    case IdentPtrn(_) => true
    case ConstPtrn(c) => v == Atom(c)
    case PairPtrn(h, t) => v.PairV? && Matches(globals, rho, h, v.head) && Matches(globals, rho, t, v.tail)
    case ValuePtrn(e) => v == Eval(globals, rho, e)
  }

  datatype Outcome = Next(rho: Bindings, sent: Messages) | Throw(reason: Value)

  /** The effect of a statement on the names in scope and the messages sent. */
  function Execute(globals: Bindings, rho: Bindings, sent: Messages, s: Stmt): Outcome
    decreases s
  {
    match s
    case DefStmt(p, e) => Define(globals, rho, sent, p, e)
    case LetStmt(l, r) =>
      (match Solve(l, r)
       case None => Throw(UndefV)
       case Some((p, e)) => Define(globals, rho, sent, p, e))
    case SendStmt(m, t) =>
      var to := Eval(globals, rho, t);
      Next(rho, if to.ActorV? then sent + [(Eval(globals, rho, m), to.id)] else sent)
    case ThrowStmt(e) => Throw(Eval(globals, rho, e))
    case StmtPair(h, t) =>
      (match Execute(globals, rho, sent, h)
       case Throw(reason) => Throw(reason)
       case Next(rho', sent') => Execute(globals, rho', sent', t))
    case EmptyStmt => Next(rho, sent)
  }

  function Define(globals: Bindings, rho: Bindings, sent: Messages, p: Ptrn, e: Expr): Outcome {
    var v := Eval(globals, rho, e);
    if Matches(globals, rho, p, v) then Next(rho + Bind(p, v), sent) else Throw(UndefV)
  }

  // ----- What an equation means -----

  /** Under the binding, the pattern stands for exactly this value. */
  predicate Denotes(globals: Bindings, rho: Bindings, binding: Bindings, p: Ptrn, v: Value) {
    match p
    case AnyPtrn => true
    case IdentPtrn(x) => x in binding && binding[x] == v
    case ConstPtrn(c) => v == Atom(c)
    case PairPtrn(h, t) =>
      v.PairV? && Denotes(globals, rho, binding, h, v.head) && Denotes(globals, rho, binding, t, v.tail)
    case ValuePtrn(e) => v == Eval(globals, rho, e)
  }

  ghost predicate Balances(globals: Bindings, rho: Bindings, binding: Bindings, left: Ptrn, right: Ptrn) {
    exists v :: Denotes(globals, rho, binding, left, v) && Denotes(globals, rho, binding, right, v)
  }

  /** Whether the pattern has a variable or a wildcard. */
  predicate Open(p: Ptrn) {
    match p
    case AnyPtrn => true
    case IdentPtrn(_) => true
    case PairPtrn(h, t) => Open(h) || Open(t)
    case _ => false
  }

  /** Some position where both sides are aligned, at most one is a pair, and neither is closed. */
  predicate Clash(left: Ptrn, right: Ptrn, heads: seq<bool>) {
    if heads == [] then !(left.PairPtrn? && right.PairPtrn?) && Open(left) && Open(right)
    else
      && left.PairPtrn? && right.PairPtrn?
      && if heads[0] then Clash(left.head, right.head, heads[1..]) else Clash(left.tail, right.tail, heads[1..])
  }

  /** A pattern becomes an expression exactly when it is closed, and then it stands for that value only. */
  lemma {:induction false} ToExprIsTheValue(globals: Bindings, rho: Bindings, binding: Bindings, p: Ptrn, v: Value)
    ensures ToExpr(p) == None <==> Open(p)
    ensures ToExpr(p).Some? ==>
              (Denotes(globals, rho, binding, p, v) <==> v == Eval(globals, rho, ToExpr(p).value))
  {
    if p.PairPtrn? {
      ToExprIsTheValue(globals, rho, binding, p.head, HeadOf(v));
      ToExprIsTheValue(globals, rho, binding, p.tail, TailOf(v));
    }
  }

  lemma DenotesAt(globals: Bindings, rho: Bindings, binding: Bindings, left: Ptrn, right: Ptrn, e: Expr)
    requires ToExpr(right) == Some(e)
    ensures Balances(globals, rho, binding, left, right) <==>
            Denotes(globals, rho, binding, left, Eval(globals, rho, e))
    ensures Balances(globals, rho, binding, right, left) <==>
            Denotes(globals, rho, binding, left, Eval(globals, rho, e))
  {
    ToExprIsTheValue(globals, rho, binding, right, Eval(globals, rho, e));
    forall v ensures Denotes(globals, rho, binding, right, v) <==> v == Eval(globals, rho, e) {
      ToExprIsTheValue(globals, rho, binding, right, v);
    }
  }

  lemma BalancesPairs(globals: Bindings, rho: Bindings, binding: Bindings, left: Ptrn, right: Ptrn)
    requires left.PairPtrn? && right.PairPtrn?
    ensures Balances(globals, rho, binding, left, right) <==>
            && Balances(globals, rho, binding, left.head, right.head)
            && Balances(globals, rho, binding, left.tail, right.tail)
  {
    if v :| Denotes(globals, rho, binding, left, v) && Denotes(globals, rho, binding, right, v) {
      assert Denotes(globals, rho, binding, right.head, v.head);
      assert Denotes(globals, rho, binding, right.tail, v.tail);
    }
    if Balances(globals, rho, binding, left.head, right.head)
       && Balances(globals, rho, binding, left.tail, right.tail) {
      var h :| Denotes(globals, rho, binding, left.head, h) && Denotes(globals, rho, binding, right.head, h);
      var t :| Denotes(globals, rho, binding, left.tail, t) && Denotes(globals, rho, binding, right.tail, t);
      assert Denotes(globals, rho, binding, left, PairV(h, t));
    }
  }

  /** A binding balances the equation exactly when the solved pattern denotes the solved expression's value. */
  lemma {:induction false} SolveIsSound(globals: Bindings, rho: Bindings, binding: Bindings, left: Ptrn, right: Ptrn)
    requires Solve(left, right).Some?
    ensures var (p, e) := Solve(left, right).value;
            Balances(globals, rho, binding, left, right) <==>
            Denotes(globals, rho, binding, p, Eval(globals, rho, e))
  {
    if left.PairPtrn? && right.PairPtrn? {
      SolveIsSound(globals, rho, binding, left.head, right.head);
      SolveIsSound(globals, rho, binding, left.tail, right.tail);
      BalancesPairs(globals, rho, binding, left, right);
    } else if ToExpr(right).Some? {
      DenotesAt(globals, rho, binding, left, right, ToExpr(right).value);
    } else {
      DenotesAt(globals, rho, binding, right, left, ToExpr(left).value);
    }
  }

  ghost predicate Clashes(left: Ptrn, right: Ptrn) {
    exists heads :: Clash(left, right, heads)
  }

  lemma ClashesBelow(left: Ptrn, right: Ptrn)
    requires left.PairPtrn? && right.PairPtrn?
    ensures Clashes(left, right) <==> Clashes(left.head, right.head) || Clashes(left.tail, right.tail)
  {
    if heads :| Clash(left, right, heads) {
      assert Clash(left.head, right.head, heads[1..]) || Clash(left.tail, right.tail, heads[1..]);
    }
    if heads :| Clash(left.head, right.head, heads) {
      assert ([true] + heads)[1..] == heads;
      assert Clash(left, right, [true] + heads);
    }
    if heads :| Clash(left.tail, right.tail, heads) {
      assert ([false] + heads)[1..] == heads;
      assert Clash(left, right, [false] + heads);
    }
  }

  /** An equation has no solution form exactly when some aligned position is open on both sides. */
  lemma {:induction false} SolveIsComplete(left: Ptrn, right: Ptrn)
    ensures Solve(left, right) == None <==> Clashes(left, right)
  {
    ToExprIsTheValue(map[], map[], map[], left, UndefV);
    ToExprIsTheValue(map[], map[], map[], right, UndefV);
    if left.PairPtrn? && right.PairPtrn? {
      SolveIsComplete(left.head, right.head);
      SolveIsComplete(left.tail, right.tail);
      ClashesBelow(left, right);
    } else {
      assert Open(left) && Open(right) <==> Clash(left, right, []);
      assert forall heads :: Clash(left, right, heads) ==> heads == [];
    }
  }

  // ----- Matching is solving -----

  predicate Distinct(p: Ptrn) {
    p.PairPtrn? ==> Distinct(p.head) && Distinct(p.tail) && Names(p.head) !! Names(p.tail)
  }

  function Names(p: Ptrn): set<string> {
    match p
    case IdentPtrn(x) => {x}
    case PairPtrn(h, t) => Names(h) + Names(t)
    case _ => {}
  }

  lemma {:induction false} BindNames(p: Ptrn, v: Value)
    ensures Bind(p, v).Keys == Names(p)
  {
    if p.PairPtrn? {
      BindNames(p.head, HeadOf(v));
      BindNames(p.tail, TailOf(v));
    }
  }

  predicate Agrees(a: Bindings, b: Bindings) {
    forall x <- a :: x in b && b[x] == a[x]
  }

  /** A pattern of distinct names denotes a value exactly under the bindings that extend its own match. */
  lemma {:induction false} MatchDenotes(globals: Bindings, rho: Bindings, binding: Bindings, p: Ptrn, v: Value)
    requires Distinct(p)
    ensures Denotes(globals, rho, binding, p, v) <==> Matches(globals, rho, p, v) && Agrees(Bind(p, v), binding)
  {
    if p.PairPtrn? {
      var h, t := HeadOf(v), TailOf(v);
      MatchDenotes(globals, rho, binding, p.head, h);
      MatchDenotes(globals, rho, binding, p.tail, t);
      BindNames(p.head, h);
      BindNames(p.tail, t);
      AgreesBoth(Bind(p.tail, t), Bind(p.head, h), binding);
    }
  }

  lemma AgreesBoth(a: Bindings, b: Bindings, c: Bindings)
    requires a.Keys !! b.Keys
    ensures Agrees(a + b, c) <==> Agrees(a, c) && Agrees(b, c)
  {
    assert forall x <- a :: x in a + b && (a + b)[x] == a[x];
    assert forall x <- b :: x in a + b && (a + b)[x] == b[x];
  }

  /**
   An IF takes its first branch exactly when its equation can be balanced, and the
   names it binds are those every balancing binding agrees with.
   */
  lemma IfSolvesItsEquation(globals: Bindings, rho: Bindings, left: Ptrn, right: Ptrn)
    requires Solve(left, right).Some? && Distinct(Solve(left, right).value.0)
    ensures var (p, e) := Solve(left, right).value;
            var v := Eval(globals, rho, e);
            && (Matches(globals, rho, p, v) <==> exists binding :: Balances(globals, rho, binding, left, right))
            && forall binding ::
                 Balances(globals, rho, binding, left, right) <==>
                 Matches(globals, rho, p, v) && Agrees(Bind(p, v), binding)
  {
    var (p, e) := Solve(left, right).value;
    var v := Eval(globals, rho, e);
    forall binding
      ensures Balances(globals, rho, binding, left, right) <==>
              Matches(globals, rho, p, v) && Agrees(Bind(p, v), binding)
    {
      SolveIsSound(globals, rho, binding, left, right);
      MatchDenotes(globals, rho, binding, p, v);
    }
    if Matches(globals, rho, p, v) {
      assert Balances(globals, rho, Bind(p, v), left, right);
    }
  }
}
