/**
 What is free in a statement, in terms of the order in which its syntax tree is visited.

 The visit is a list of marks: scopes are entered and left, names are defined in the innermost scope, and used.
 */
module HumusVisit {
  import opened Prelude
  import opened HumusSyntax
  import opened HumusMachine
  import opened HumusEval
  import opened HumusEnv
  import opened HumusSort
  import opened HumusAnalysis

  datatype Mark = Enter | Leave | Define(name: string) | Use(name: string)
  type Visit = seq<Mark>

  // ----- The visit -----

  function ExprVisit(e: Expr): Visit
    decreases ExprSize(e)
  {
    match e
    case ConstExpr(_) => []
    case IdentExpr(x) => [Use(x)]
    case PairExpr(h, t) => ExprVisit(h) + ExprVisit(t)
    case IfExpr(l, r, x, n) => [Enter] + (PtrnVisit(l) + (PtrnVisit(r) + (ExprVisit(x) + ([Leave] + ExprVisit(n)))))
    case CaseExpr(s, c) => ExprVisit(s) + ChoiceVisit(c)
  }

  function PtrnVisit(p: Ptrn): Visit
    decreases PtrnSize(p)
  {
    match p
    case AnyPtrn => []
    case IdentPtrn(x) => [Define(x)]
    case ConstPtrn(_) => []
    case PairPtrn(h, t) => PtrnVisit(h) + PtrnVisit(t)
    case ValuePtrn(e) => ExprVisit(e)
  }

  function ChoiceVisit(c: Choice): Visit
    decreases ChoiceSize(c)
  {
    match c
    case CaseEnd => []
    case CaseChoice(p, x, n) => [Enter] + (PtrnVisit(p) + (ExprVisit(x) + ([Leave] + ChoiceVisit(n))))
  }

  function StmtVisit(s: Stmt): Visit {
    match s
    case DefStmt(p, e) => PtrnVisit(p) + ExprVisit(e)
    case LetStmt(l, r) => PtrnVisit(l) + PtrnVisit(r)
    case SendStmt(m, t) => ExprVisit(m) + ExprVisit(t)
    case ThrowStmt(e) => ExprVisit(e)
    case _ => []
  }

  // ----- Scopes -----

  /** How many scopes are open before the i-th mark. */
  function Level(v: Visit, i: nat): int
    requires i <= |v|
  {
    if i == 0 then 0
    else Level(v, i - 1) + if v[i - 1] == Enter then 1 else if v[i - 1] == Leave then -1 else 0
  }

  /** The scope that was innermost at the j-th mark is still open before the i-th. */
  ghost predicate StillOpen(v: Visit, j: nat, i: nat)
    requires j < i <= |v|
  {
    forall k :: j < k <= i ==> Level(v, k) >= Level(v, j)
  }

  /** A scope that is still open before the i-th mark has defined the name. */
  ghost predicate DefinedThere(v: Visit, i: nat, x: string)
    requires i <= |v|
  {
    exists j :: 0 <= j < i && v[j] == Define(x) && StillOpen(v, j, i)
  }

  /** The name is used somewhere where no open scope has defined it. */
  ghost predicate FreeIn(v: Visit, x: string) {
    exists i :: 0 <= i < |v| && v[i] == Use(x) && !DefinedThere(v, i, x)
  }

  // ----- The scopes as a stack -----

  type Scopes = seq<set<string>>

  function Marked(scopes: Scopes, m: Mark): Scopes
    requires scopes != []
  {
    var last := |scopes| - 1;
    match m
    case Enter => scopes + [{}]
    case Leave => if last == 0 then scopes else scopes[..last]
    case Define(x) => scopes[last := scopes[last] + {x}]
    case Use(_) => scopes
  }

  function ScopesAt(v: Visit, i: nat): (r: Scopes)
    requires i <= |v|
    ensures r != []
  {
    if i == 0 then [{}] else Marked(ScopesAt(v, i - 1), v[i - 1])
  }

  /** No scope is left that has not been entered. */
  ghost predicate Proper(v: Visit) { forall i :: 0 <= i <= |v| ==> Level(v, i) >= 0 }

  ghost predicate Opened(v: Visit, i: nat, d: nat, x: string)
    requires i <= |v|
  {
    exists j :: 0 <= j < i && v[j] == Define(x) && Level(v, j) == d && StillOpen(v, j, i)
  }

  /** The stack has in each open scope what that has defined. */
  lemma {:induction false} StackHolds(v: Visit, i: nat, d: nat, x: string)
    requires Proper(v) && i <= |v| && d <= Level(v, i)
    ensures |ScopesAt(v, i)| == Level(v, i) + 1
    ensures x in ScopesAt(v, i)[d] <==> Opened(v, i, d, x)
  {
    if i > 0 {
      var m, before := v[i - 1], ScopesAt(v, i - 1);
      StackHeight(v, i - 1);
      if m == Enter && d == Level(v, i) {
        NothingOpened(v, i, d, x);
      } else {
        StackHolds(v, i - 1, d, x);
        OpenedNext(v, i, d, x);
      }
    }
  }

  lemma {:induction false} StackHeight(v: Visit, i: nat)
    requires Proper(v) && i <= |v|
    ensures |ScopesAt(v, i)| == Level(v, i) + 1
  {
    if i > 0 { StackHeight(v, i - 1); }
  }

  lemma NothingOpened(v: Visit, i: nat, d: nat, x: string)
    requires 0 < i <= |v| && v[i - 1] == Enter && d == Level(v, i)
    ensures !Opened(v, i, d, x)
  {
    forall j | 0 <= j < i && v[j] == Define(x) && Level(v, j) == d ensures !StillOpen(v, j, i) {
      assert Level(v, i - 1) == d - 1 && j < i - 1;
    }
  }

  lemma OpenedNext(v: Visit, i: nat, d: nat, x: string)
    requires 0 < i <= |v| && d <= Level(v, i) && d <= Level(v, i - 1)
    ensures Opened(v, i, d, x) <==> Opened(v, i - 1, d, x) || (v[i - 1] == Define(x) && Level(v, i - 1) == d)
  {
    if Opened(v, i, d, x) {
      var j :| 0 <= j < i && v[j] == Define(x) && Level(v, j) == d && StillOpen(v, j, i);
      assert j < i - 1 ==> StillOpen(v, j, i - 1);
    }
    if Opened(v, i - 1, d, x) {
      var j :| 0 <= j < i - 1 && v[j] == Define(x) && Level(v, j) == d && StillOpen(v, j, i - 1);
      assert StillOpen(v, j, i);
    }
    if v[i - 1] == Define(x) && Level(v, i - 1) == d {
      assert StillOpen(v, i - 1, i);
    }
  }

  // ----- Visits one after the other -----

  function All(scopes: Scopes): set<string> {
    if scopes == [] then {} else All(scopes[..|scopes| - 1]) + scopes[|scopes| - 1]
  }

  lemma AllScopes(scopes: Scopes, names: set<string>)
    requires scopes != []
    ensures All(scopes + [names]) == All(scopes) + names
    ensures All(scopes[|scopes| - 1 := scopes[|scopes| - 1] + names]) == All(scopes) + names
  {
    var last := |scopes| - 1;
    assert (scopes + [names])[..last + 1] == scopes;
    assert scopes[last := scopes[last] + names][..last] == scopes[..last];
  }

  function After(v: Visit, scopes: Scopes): (r: Scopes)
    requires scopes != []
    ensures r != []
  {
    if v == [] then scopes else After(v[1..], Marked(scopes, v[0]))
  }

  function FoundIn(v: Visit, scopes: Scopes): set<string>
    requires scopes != []
  {
    if v == [] then {}
    else (if v[0].Use? && v[0].name !in All(scopes) then {v[0].name} else {}) + FoundIn(v[1..], Marked(scopes, v[0]))
  }

  lemma {:induction false} VisitAppend(x: Visit, y: Visit, scopes: Scopes)
    requires scopes != []
    ensures After(x + y, scopes) == After(y, After(x, scopes))
    ensures FoundIn(x + y, scopes) == FoundIn(x, scopes) + FoundIn(y, After(x, scopes))
    decreases |x|
  {
    if x == [] {
      assert x + y == y;
    } else {
      assert (x + y)[1..] == x[1..] + y;
      VisitAppend(x[1..], y, Marked(scopes, x[0]));
    }
  }

  lemma VisitOne(m: Mark, scopes: Scopes)
    requires scopes != []
    ensures After([m], scopes) == Marked(scopes, m)
    ensures FoundIn([m], scopes) == if m.Use? && m.name !in All(scopes) then {m.name} else {}
  {
    assert [m][1..] == [];
  }

  lemma {:induction false} ExprFound(e: Expr, scopes: Scopes)
    requires scopes != []
    ensures After(ExprVisit(e), scopes) == scopes
    ensures FoundIn(ExprVisit(e), scopes) == ExprFree(e, All(scopes))
    decreases ExprSize(e), 1
  {
    match e
    case ConstExpr(_) =>
    case IdentExpr(x) => VisitOne(Use(x), scopes);
    case PairExpr(h, t) =>
      ExprFound(h, scopes);
      ExprFound(t, scopes);
      VisitAppend(ExprVisit(h), ExprVisit(t), scopes);
    case IfExpr(l, r, x, n) => IfExprFound(e, scopes);
    case CaseExpr(s, c) =>
      ExprFound(s, scopes);
      ChoiceFound(c, scopes);
      VisitAppend(ExprVisit(s), ChoiceVisit(c), scopes);
  }

  lemma {:induction false} IfExprFound(e: Expr, scopes: Scopes)
    requires e.IfExpr? && scopes != []
    ensures After(ExprVisit(e), scopes) == scopes
    ensures FoundIn(ExprVisit(e), scopes) == ExprFree(e, All(scopes))
    decreases ExprSize(e), 0
  {
    var x, y := Names(e.left), Names(e.left) + Names(e.right);
    PtrnFound(e.left, scopes + [{}]);
    PtrnFound(e.right, scopes + [x]);
    ExprFound(e.expr, scopes + [y]);
    ExprFound(e.next, scopes);
    Replaced(scopes, {}, x);
    Replaced(scopes, x, Names(e.right));
    IfFound(scopes, PtrnVisit(e.left), PtrnVisit(e.right), ExprVisit(e.expr), ExprVisit(e.next), x, y);
    AllInner(scopes, {});
    AllInner(scopes, x);
    AllInner(scopes, y);
    assert All(scopes) + y == All(scopes) + Names(e.left) + Names(e.right);
  }

  lemma AllInner(scopes: Scopes, names: set<string>)
    ensures All(scopes + [names]) == All(scopes) + names
    ensures names == {} ==> All(scopes + [names]) == All(scopes)
  {
    assert (scopes + [names])[..|scopes|] == scopes;
  }

  lemma Replaced(scopes: Scopes, names: set<string>, more: set<string>)
    ensures (scopes + [names])[|scopes| := (scopes + [names])[|scopes|] + more] == scopes + [names + more]
    ensures names == {} ==> names + more == more
  {
  }

  lemma Regrouped(a: Visit, b: Visit, c: Visit, d: Visit)
    ensures (a + (b + c)) + d == a + (b + (c + d))
  {
  }

  lemma ThreeFound(a: Visit, b: Visit, c: Visit, scopes: Scopes)
    requires scopes != []
    ensures var s1 := After(a, scopes);
            var s2 := After(b, s1);
            && After(a + (b + c), scopes) == After(c, s2)
            && FoundIn(a + (b + c), scopes) == FoundIn(a, scopes) + (FoundIn(b, s1) + FoundIn(c, s2))
  {
    VisitAppend(a, b + c, scopes);
    VisitAppend(b, c, After(a, scopes));
  }

  /** What is visited in a scope of its own, and then outside of it. */
  lemma EnclosedFound(scopes: Scopes, v: Visit, w: Visit)
    requires scopes != []
    requires var inner := After(v, scopes + [{}]); |inner| == |scopes| + 1 && inner[..|scopes|] == scopes
    ensures After([Enter] + (v + ([Leave] + w)), scopes) == After(w, scopes)
    ensures FoundIn([Enter] + (v + ([Leave] + w)), scopes) == FoundIn(v, scopes + [{}]) + FoundIn(w, scopes)
  {
    var inner := After(v, scopes + [{}]);
    EnterFound(scopes, v + ([Leave] + w));
    VisitAppend(v, [Leave] + w, scopes + [{}]);
    LeaveFound(inner, w);
  }

  lemma EnterFound(scopes: Scopes, v: Visit)
    requires scopes != []
    ensures After([Enter] + v, scopes) == After(v, scopes + [{}])
    ensures FoundIn([Enter] + v, scopes) == FoundIn(v, scopes + [{}])
  {
    assert ([Enter] + v)[1..] == v;
  }

  lemma LeaveFound(scopes: Scopes, v: Visit)
    requires |scopes| > 1
    ensures After([Leave] + v, scopes) == After(v, scopes[..|scopes| - 1])
    ensures FoundIn([Leave] + v, scopes) == FoundIn(v, scopes[..|scopes| - 1])
  {
    assert ([Leave] + v)[1..] == v;
  }

  lemma IfFound(scopes: Scopes, a: Visit, b: Visit, c: Visit, d: Visit, x: set<string>, y: set<string>)
    requires scopes != [] && After(a, scopes + [{}]) == scopes + [x] && After(b, scopes + [x]) == scopes + [y]
    requires After(c, scopes + [y]) == scopes + [y] && After(d, scopes) == scopes
    ensures var v := [Enter] + (a + (b + (c + ([Leave] + d))));
            && After(v, scopes) == scopes
            && FoundIn(v, scopes) == FoundIn(a, scopes + [{}]) + FoundIn(b, scopes + [x])
                                     + FoundIn(c, scopes + [y]) + FoundIn(d, scopes)
  {
    ThreeFound(a, b, c, scopes + [{}]);
    EnclosedFound(scopes, a + (b + c), d);
    Regrouped(a, b, c, [Leave] + d);
  }

  lemma {:induction false} PtrnFound(p: Ptrn, scopes: Scopes)
    requires scopes != []
    ensures After(PtrnVisit(p), scopes) == scopes[|scopes| - 1 := scopes[|scopes| - 1] + Names(p)]
    ensures FoundIn(PtrnVisit(p), scopes) == PtrnFree(p, All(scopes))
    decreases PtrnSize(p), 0
  {
    var last := |scopes| - 1;
    match p
    case IdentPtrn(x) => VisitOne(Define(x), scopes);
    case PairPtrn(h, t) =>
      PtrnFound(h, scopes);
      AllScopes(scopes, Names(h));
      PtrnFound(t, After(PtrnVisit(h), scopes));
      VisitAppend(PtrnVisit(h), PtrnVisit(t), scopes);
      assert scopes[last] + Names(h) + Names(t) == scopes[last] + (Names(h) + Names(t));
    case ValuePtrn(e) =>
      ExprFound(e, scopes);
      assert scopes[last] + {} == scopes[last];
    case _ => assert scopes[last] + {} == scopes[last];
  }

  lemma {:induction false} ChoiceFound(c: Choice, scopes: Scopes)
    requires scopes != []
    ensures After(ChoiceVisit(c), scopes) == scopes
    ensures FoundIn(ChoiceVisit(c), scopes) == ChoiceFree(c, All(scopes))
    decreases ChoiceSize(c), 0
  {
    match c
    case CaseEnd =>
    case CaseChoice(p, x, n) =>
      var inner := scopes + [{}];
      AllScopes(scopes, {});
      assert All(inner) == All(scopes);
      PtrnFound(p, inner);
      AllScopes(inner, Names(p));
      ExprFound(x, After(PtrnVisit(p), inner));
      ChoiceFound(n, scopes);
      VisitAppend(PtrnVisit(p), ExprVisit(x), inner);
      EnclosedFound(scopes, PtrnVisit(p) + ExprVisit(x), ChoiceVisit(n));
      Associates(PtrnVisit(p), ExprVisit(x), [Leave] + ChoiceVisit(n));
  }

  /** A statement's visit finds its free names, and leaves the names it defines. */
  lemma StmtFound(s: Stmt)
    ensures After(StmtVisit(s), [{}]) == [Analyze(s).define]
    ensures FoundIn(StmtVisit(s), [{}]) == Analyze(s).free
  {
    var base: Scopes := [{}];
    assert base[..0] == [] && All(base) == {};
    match s
    case DefStmt(p, e) =>
      PtrnFound(p, base);
      AllScopes(base, Names(p));
      ExprFound(e, After(PtrnVisit(p), base));
      VisitAppend(PtrnVisit(p), ExprVisit(e), base);
    case LetStmt(l, r) =>
      PtrnFound(l, base);
      AllScopes(base, Names(l));
      PtrnFound(r, After(PtrnVisit(l), base));
      VisitAppend(PtrnVisit(l), PtrnVisit(r), base);
    case SendStmt(m, t) =>
      ExprFound(m, base);
      ExprFound(t, base);
      VisitAppend(ExprVisit(m), ExprVisit(t), base);
    case ThrowStmt(e) => ExprFound(e, base);
    case _ =>
  }

  // ----- Places in a visit -----

  lemma {:induction false} FoundWhere(v: Visit, scopes: Scopes, x: string)
    requires scopes != []
    ensures x in FoundIn(v, scopes) <==>
            exists i :: 0 <= i < |v| && v[i] == Use(x) && x !in All(After(v[..i], scopes))
    decreases |v|
  {
    if v != [] {
      var rest, next := v[1..], Marked(scopes, v[0]);
      FoundWhere(rest, next, x);
      assert v[..0] == [];
      forall i | 1 <= i < |v| ensures After(v[..i], scopes) == After(rest[..i - 1], next) {
        assert v[..i][1..] == rest[..i - 1];
      }
      if i :| 0 <= i < |v| && v[i] == Use(x) && x !in All(After(v[..i], scopes)) {
        if i > 0 { assert rest[i - 1] == Use(x) && x !in All(After(rest[..i - 1], next)); }
      }
      if i :| 0 <= i < |rest| && rest[i] == Use(x) && x !in All(After(rest[..i], next)) {
        assert v[i + 1] == Use(x) && After(v[..i + 1], scopes) == After(rest[..i], next);
      }
    }
  }

  lemma {:induction false} AfterIsScopesAt(v: Visit, i: nat)
    requires i <= |v|
    ensures After(v[..i], [{}]) == ScopesAt(v, i)
  {
    if i > 0 {
      AfterIsScopesAt(v, i - 1);
      VisitAppend(v[..i - 1], [v[i - 1]], [{}]);
      VisitOne(v[i - 1], ScopesAt(v, i - 1));
      assert v[..i] == v[..i - 1] + [v[i - 1]];
    } else {
      assert v[..0] == [];
    }
  }

  lemma {:induction false} AllWhere(scopes: Scopes, x: string)
    ensures x in All(scopes) <==> exists d :: 0 <= d < |scopes| && x in scopes[d]
  {
    if scopes != [] { AllWhere(scopes[..|scopes| - 1], x); }
  }

  lemma OpenDefined(v: Visit, i: nat, x: string)
    requires Proper(v) && i <= |v|
    ensures x in All(ScopesAt(v, i)) <==> DefinedThere(v, i, x)
  {
    AllWhere(ScopesAt(v, i), x);
    StackHeight(v, i);
    if d :| 0 <= d < |ScopesAt(v, i)| && x in ScopesAt(v, i)[d] {
      StackHolds(v, i, d, x);
    }
    if DefinedThere(v, i, x) {
      var j :| 0 <= j < i && v[j] == Define(x) && StillOpen(v, j, i);
      assert Level(v, i) >= Level(v, j) >= 0;
      StackHolds(v, i, Level(v, j), x);
      assert Opened(v, i, Level(v, j), x);
    }
  }

  // ----- Visits are balanced -----

  ghost predicate Balanced(v: Visit) { Proper(v) && Level(v, |v|) == 0 }

  lemma {:induction false} LevelAppend(x: Visit, y: Visit, k: nat)
    requires k <= |x| + |y|
    ensures Level(x + y, k) == if k <= |x| then Level(x, k) else Level(x, |x|) + Level(y, k - |x|)
  {
    if k > 0 { LevelAppend(x, y, k - 1); }
  }

  lemma BothBalanced(x: Visit, y: Visit)
    requires Balanced(x) && Balanced(y)
    ensures Balanced(x + y)
  {
    forall k | 0 <= k <= |x + y| ensures Level(x + y, k) >= 0 {
      LevelAppend(x, y, k);
    }
    LevelAppend(x, y, |x| + |y|);
  }

  lemma EnclosedBalanced(x: Visit, y: Visit)
    requires Balanced(x) && Balanced(y)
    ensures Balanced([Enter] + (x + ([Leave] + y)))
  {
    var inner, v := [Leave] + y, [Enter] + (x + ([Leave] + y));
    assert Level([Enter], 1) == 1 && Level([Leave], 1) == -1;
    forall k | 0 <= k <= |v| ensures Level(v, k) >= 0 && (k == |v| ==> Level(v, k) == 0) {
      LevelAppend([Enter], x + inner, k);
      if k > 1 {
        LevelAppend(x, inner, k - 1);
        if k - 1 > |x| { LevelAppend([Leave], y, k - 1 - |x|); }
      }
    }
  }

  lemma OneBalanced(m: Mark)
    requires !m.Enter? && !m.Leave?
    ensures Balanced([m])
  {
    assert Level([m], 1) == 0;
  }

  lemma {:induction false} ExprBalanced(e: Expr)
    ensures Balanced(ExprVisit(e))
    decreases ExprSize(e)
  {
    match e
    case ConstExpr(_) =>
    case IdentExpr(x) => OneBalanced(Use(x));
    case PairExpr(h, t) =>
      ExprBalanced(h);
      ExprBalanced(t);
      BothBalanced(ExprVisit(h), ExprVisit(t));
    case IfExpr(l, r, x, n) =>
      PtrnBalanced(l);
      PtrnBalanced(r);
      ExprBalanced(x);
      ExprBalanced(n);
      BothBalanced(PtrnVisit(r), ExprVisit(x));
      BothBalanced(PtrnVisit(l), PtrnVisit(r) + ExprVisit(x));
      EnclosedBalanced(PtrnVisit(l) + (PtrnVisit(r) + ExprVisit(x)), ExprVisit(n));
      Associates(PtrnVisit(r), ExprVisit(x), [Leave] + ExprVisit(n));
      Associates(PtrnVisit(l), PtrnVisit(r) + ExprVisit(x), [Leave] + ExprVisit(n));
    case CaseExpr(s, c) =>
      ExprBalanced(s);
      ChoiceBalanced(c);
      BothBalanced(ExprVisit(s), ChoiceVisit(c));
  }

  lemma {:induction false} PtrnBalanced(p: Ptrn)
    ensures Balanced(PtrnVisit(p))
    decreases PtrnSize(p)
  {
    match p
    case IdentPtrn(x) => OneBalanced(Define(x));
    case PairPtrn(h, t) =>
      PtrnBalanced(h);
      PtrnBalanced(t);
      BothBalanced(PtrnVisit(h), PtrnVisit(t));
    case ValuePtrn(e) => ExprBalanced(e);
    case _ =>
  }

  lemma {:induction false} ChoiceBalanced(c: Choice)
    ensures Balanced(ChoiceVisit(c))
    decreases ChoiceSize(c)
  {
    match c
    case CaseEnd =>
    case CaseChoice(p, x, n) =>
      PtrnBalanced(p);
      ExprBalanced(x);
      ChoiceBalanced(n);
      BothBalanced(PtrnVisit(p), ExprVisit(x));
      EnclosedBalanced(PtrnVisit(p) + ExprVisit(x), ChoiceVisit(n));
      Associates(PtrnVisit(p), ExprVisit(x), [Leave] + ChoiceVisit(n));
  }

  lemma StmtBalanced(s: Stmt)
    ensures Balanced(StmtVisit(s))
  {
    match s
    case DefStmt(p, e) =>
      PtrnBalanced(p);
      ExprBalanced(e);
      BothBalanced(PtrnVisit(p), ExprVisit(e));
    case LetStmt(l, r) =>
      PtrnBalanced(l);
      PtrnBalanced(r);
      BothBalanced(PtrnVisit(l), PtrnVisit(r));
    case SendStmt(m, t) =>
      ExprBalanced(m);
      ExprBalanced(t);
      BothBalanced(ExprVisit(m), ExprVisit(t));
    case ThrowStmt(e) => ExprBalanced(e);
    case _ =>
  }

  /**
   A name is free in a statement if and only if it is used somewhere where no scope that is open then has defined it
   before; the statement defines what is defined outside of all scopes that are entered within it.
   */
  lemma AnalysisIsTheVisit(s: Stmt, x: string)
    ensures x in Analyze(s).free <==> FreeIn(StmtVisit(s), x)
    ensures x in Analyze(s).define <==>
            exists i :: 0 <= i < |StmtVisit(s)| && StmtVisit(s)[i] == Define(x) && Level(StmtVisit(s), i) == 0
  {
    var v := StmtVisit(s);
    StmtFound(s);
    StmtBalanced(s);
    FoundWhere(v, [{}], x);
    forall i | 0 <= i < |v| ensures x in All(After(v[..i], [{}])) <==> DefinedThere(v, i, x) {
      AfterIsScopesAt(v, i);
      OpenDefined(v, i, x);
    }
    AfterIsScopesAt(v, |v|);
    assert v[..|v|] == v;
    StackHolds(v, |v|, 0, x);
    forall j | 0 <= j < |v| && Level(v, j) == 0 ensures StillOpen(v, j, |v|) {
    }
  }

  // ----- Repeated names -----

  /** The names that a visit defines, in order. */
  function Definitions(v: Visit): seq<string> {
    if v == [] then []
    else
      var last := |v| - 1;
      Definitions(v[..last]) + match v[last] case Define(x) => [x] case _ => []
  }

  lemma {:induction false} DefinitionsAppend(x: Visit, y: Visit)
    ensures Definitions(x + y) == Definitions(x) + Definitions(y)
    decreases |y|
  {
    if y == [] {
      assert x + y == x;
    } else {
      assert (x + y)[..|x + y| - 1] == x + y[..|y| - 1];
      DefinitionsAppend(x, y[..|y| - 1]);
    }
  }

  lemma OneDefinition(m: Mark)
    ensures Definitions([m]) == match m case Define(x) => [x] case _ => []
  {
    assert [m][..0] == [];
  }

  lemma EnclosedDefinitions(x: Visit, y: Visit)
    ensures Definitions([Enter] + (x + ([Leave] + y))) == Definitions(x) + Definitions(y)
  {
    OneDefinition(Enter);
    OneDefinition(Leave);
    DefinitionsAppend([Enter], x + ([Leave] + y));
    DefinitionsAppend(x, [Leave] + y);
    DefinitionsAppend([Leave], y);
  }

  lemma IfDefinitions(l: Visit, r: Visit, x: Visit, n: Visit)
    ensures Definitions([Enter] + (l + (r + (x + ([Leave] + n))))) ==
            Definitions(l) + Definitions(r) + Definitions(x) + Definitions(n)
  {
    DefinitionsAppend(r, x);
    DefinitionsAppend(l, r + x);
    EnclosedDefinitions(l + (r + x), n);
    Associates(r, x, [Leave] + n);
    Associates(l, r + x, [Leave] + n);
  }

  lemma {:induction false} ExprIdentsVisited(e: Expr)
    ensures ExprIdents(e) == Definitions(ExprVisit(e))
    decreases ExprSize(e)
  {
    match e
    case ConstExpr(_) =>
    case IdentExpr(x) => OneDefinition(Use(x));
    case PairExpr(h, t) =>
      ExprIdentsVisited(h);
      ExprIdentsVisited(t);
      DefinitionsAppend(ExprVisit(h), ExprVisit(t));
    case IfExpr(l, r, x, n) =>
      PtrnIdentsVisited(l);
      PtrnIdentsVisited(r);
      ExprIdentsVisited(x);
      ExprIdentsVisited(n);
      IfDefinitions(PtrnVisit(l), PtrnVisit(r), ExprVisit(x), ExprVisit(n));
    case CaseExpr(s, c) =>
      ExprIdentsVisited(s);
      ChoiceIdentsVisited(c);
      DefinitionsAppend(ExprVisit(s), ChoiceVisit(c));
  }

  lemma {:induction false} PtrnIdentsVisited(p: Ptrn)
    ensures PtrnIdents(p) == Definitions(PtrnVisit(p))
    decreases PtrnSize(p)
  {
    match p
    case IdentPtrn(x) => OneDefinition(Define(x));
    case PairPtrn(h, t) =>
      PtrnIdentsVisited(h);
      PtrnIdentsVisited(t);
      DefinitionsAppend(PtrnVisit(h), PtrnVisit(t));
    case ValuePtrn(e) => ExprIdentsVisited(e);
    case _ =>
  }

  lemma {:induction false} ChoiceIdentsVisited(c: Choice)
    ensures ChoiceIdents(c) == Definitions(ChoiceVisit(c))
    decreases ChoiceSize(c)
  {
    match c
    case CaseEnd =>
    case CaseChoice(p, x, n) =>
      PtrnIdentsVisited(p);
      ExprIdentsVisited(x);
      ChoiceIdentsVisited(n);
      DefinitionsAppend(PtrnVisit(p), ExprVisit(x));
      EnclosedDefinitions(PtrnVisit(p) + ExprVisit(x), ChoiceVisit(n));
      Associates(PtrnVisit(p), ExprVisit(x), [Leave] + ChoiceVisit(n));
  }

  ghost predicate DefinedTwice(v: Visit, x: string) {
    exists i, j :: 0 <= i < j < |v| && v[i] == Define(x) == v[j]
  }

  lemma {:induction false} DefinitionsWhere(v: Visit, x: string)
    ensures x in Definitions(v) <==> Define(x) in v
  {
    if v != [] {
      var front, last := v[..|v| - 1], |v| - 1;
      DefinitionsWhere(front, x);
      assert v == front + [v[last]];
    }
  }

  lemma {:induction false} RepeatsVisited(v: Visit)
    ensures NoRepeats(Definitions(v)) <==> forall x :: !DefinedTwice(v, x)
  {
    if v != [] {
      var front, last := v[..|v| - 1], |v| - 1;
      RepeatsVisited(front);
      forall x ensures DefinedTwice(v, x) <==> DefinedTwice(front, x) || (v[last] == Define(x) && Define(x) in front) {
        TwiceNext(front, v[last], x);
        assert v == front + [v[last]];
      }
      if v[last].Define? {
        DefinitionsWhere(front, v[last].name);
        OneMoreRepeats(Definitions(front), v[last].name);
      } else {
        assert Definitions(v) == Definitions(front);
      }
    }
  }

  lemma TwiceNext(front: Visit, m: Mark, x: string)
    ensures DefinedTwice(front + [m], x) <==> DefinedTwice(front, x) || (m == Define(x) && Define(x) in front)
  {
    var v := front + [m];
    if i, j :| 0 <= i < j < |v| && v[i] == Define(x) == v[j] {
      if j < |front| { assert front[i] == Define(x) == front[j]; } else { assert front[i] == Define(x); }
    }
    if i, j :| 0 <= i < j < |front| && front[i] == Define(x) == front[j] {
      assert v[i] == Define(x) == v[j];
    }
    if m == Define(x) && Define(x) in front {
      var i :| 0 <= i < |front| && front[i] == Define(x);
      assert v[i] == Define(x) == v[|front|];
    }
  }

  lemma OneMoreRepeats(s: seq<string>, x: string)
    ensures NoRepeats(s + [x]) <==> NoRepeats(s) && x !in s
  {
    var t := s + [x];
    if NoRepeats(t) {
      forall i, j | 0 <= i < j < |s| ensures s[i] != s[j] {
        assert t[i] != t[j];
      }
      forall i | 0 <= i < |s| ensures s[i] != x {
        assert t[i] != t[|s|];
      }
    }
  }

  /** A pattern repeats a name if and only if a visit of it defines a name in two places. */
  lemma RepeatsAreTheVisit(p: Ptrn)
    ensures NoRepeats(PtrnIdents(p)) <==> forall x :: !DefinedTwice(PtrnVisit(p), x)
    ensures forall x :: x in PtrnIdents(p) <==> Define(x) in PtrnVisit(p)
  {
    PtrnIdentsVisited(p);
    RepeatsVisited(PtrnVisit(p));
    forall x ensures x in PtrnIdents(p) <==> Define(x) in PtrnVisit(p) {
      DefinitionsWhere(PtrnVisit(p), x);
    }
  }

  // ----- Uses -----

  /** What solves an equation uses what the equation does. */
  lemma {:induction false} ClosedUses(p: Ptrn)
    requires ToExpr(p).Some?
    ensures ExprUses(ToExpr(p).value) == PtrnUses(p)
  {
    if p.PairPtrn? {
      ClosedUses(p.head);
      ClosedUses(p.tail);
    }
  }

  lemma {:induction false} SolveUses(left: Ptrn, right: Ptrn)
    requires Solve(left, right).Some?
    ensures var (p, e) := Solve(left, right).value; ExprUses(e) + PtrnUses(p) == PtrnUses(left) + PtrnUses(right)
  {
    if left.PairPtrn? && right.PairPtrn? {
      SolveUses(left.head, right.head);
      SolveUses(left.tail, right.tail);
      var (p, e) := Solve(left.head, right.head).value;
      var (q, f) := Solve(left.tail, right.tail).value;
      PairUses(p, e, q, f);
    } else if ToExpr(right).Some? {
      ClosedUses(right);
    } else {
      ClosedUses(left);
    }
  }

  lemma PairUses(p: Ptrn, e: Expr, q: Ptrn, f: Expr)
    ensures ExprUses(PairExpr(e, f)) + PtrnUses(PairPtrn(p, q)) ==
            (ExprUses(e) + PtrnUses(p)) + (ExprUses(f) + PtrnUses(q))
  {
  }

  /** Whatever is used is visited, wherever it is bound. */
  lemma {:induction false} ExprUsesVisited(e: Expr, x: string)
    requires x in ExprUses(e)
    ensures Use(x) in ExprVisit(e)
    decreases ExprSize(e)
  {
    match e
    case PairExpr(h, t) => if x in ExprUses(h) { ExprUsesVisited(h, x); } else { ExprUsesVisited(t, x); }
    case IfExpr(l, r, b, n) =>
      SolveUses(l, r);
      if x in PtrnUses(l) {
        PtrnUsesVisited(l, x);
      } else if x in PtrnUses(r) {
        PtrnUsesVisited(r, x);
      } else if x in ExprUses(b) {
        ExprUsesVisited(b, x);
      } else {
        ExprUsesVisited(n, x);
      }
    case CaseExpr(s, c) => if x in ExprUses(s) { ExprUsesVisited(s, x); } else { ChoiceUsesVisited(c, x); }
    case _ =>
  }

  lemma {:induction false} PtrnUsesVisited(p: Ptrn, x: string)
    requires x in PtrnUses(p)
    ensures Use(x) in PtrnVisit(p)
    decreases PtrnSize(p)
  {
    match p
    case PairPtrn(h, t) => if x in PtrnUses(h) { PtrnUsesVisited(h, x); } else { PtrnUsesVisited(t, x); }
    case ValuePtrn(e) => ExprUsesVisited(e, x);
    case _ =>
  }

  lemma {:induction false} ChoiceUsesVisited(c: Choice, x: string)
    requires x in ChoiceUses(c)
    ensures Use(x) in ChoiceVisit(c)
    decreases ChoiceSize(c)
  {
    match c
    case CaseChoice(p, b, n) =>
      if x in PtrnUses(p) {
        PtrnUsesVisited(p, x);
      } else if x in ExprUses(b) {
        ExprUsesVisited(b, x);
      } else {
        ChoiceUsesVisited(n, x);
      }
    case _ =>
  }

  lemma StmtUsesVisited(s: Stmt, x: string)
    requires x in StmtUses(s)
    ensures Use(x) in StmtVisit(s)
  {
    match s
    case DefStmt(p, e) => if x in PtrnUses(p) { PtrnUsesVisited(p, x); } else { ExprUsesVisited(e, x); }
    case LetStmt(l, r) =>
      SolveUses(l, r);
      if x in PtrnUses(l) { PtrnUsesVisited(l, x); } else { PtrnUsesVisited(r, x); }
    case SendStmt(m, t) => if x in ExprUses(m) { ExprUsesVisited(m, x); } else { ExprUsesVisited(t, x); }
    case ThrowStmt(e) => ExprUsesVisited(e, x);
    case _ =>
  }

  /** A name that a statement uses and none of its patterns binds is free in it; what is free in it is used in it. */
  lemma UnboundUseIsFree(s: Stmt, x: string)
    ensures x in StmtUses(s) && Define(x) !in StmtVisit(s) ==> x in Analyze(s).free
    ensures x in Analyze(s).free ==> Use(x) in StmtVisit(s)
  {
    AnalysisIsTheVisit(s, x);
    if x in StmtUses(s) && Define(x) !in StmtVisit(s) {
      StmtUsesVisited(s, x);
      var i :| 0 <= i < |StmtVisit(s)| && StmtVisit(s)[i] == Use(x);
      assert !DefinedThere(StmtVisit(s), i, x);
    }
  }
}
