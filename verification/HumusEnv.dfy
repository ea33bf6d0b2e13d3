/**
 The static environment of the code generator and what it says about the run-time
 value that mirrors it.
 */
module HumusEnv {
  import opened Prelude
  import opened HumusSyntax
  import opened HumusPaths
  import opened HumusMachine
  import opened HumusEval

  /** The shape of the values a pattern matches, with the names it binds at the leaves. */
  function ShapeOf(p: Ptrn): Tree {
    match p
    case IdentPtrn(x) => Leaf(Some(x), {})
    case PairPtrn(h, t) => Node(ShapeOf(h), ShapeOf(t), {})
    case _ => Leaf(None, {})
  }

  /** What the names in a tree stand for when a value is laid under it; heads win over tails. */
  function Bound(t: Tree, v: Value): Bindings {
    match t
    case Leaf(Some(x), _) => map[x := v]
    case Leaf(None, _) => map[]
    case Node(h, l, _) => Bound(l, TailOf(v)) + Bound(h, HeadOf(v))
  }

  predicate Unmarked(t: Tree) {
    t.marks == {} && (t.Node? ==> Unmarked(t.head) && Unmarked(t.tail))
  }

  function NamesIn(t: Tree): set<string> {
    match t
    case Leaf(Some(x), _) => {x}
    case Leaf(None, _) => {}
    case Node(h, l, _) => NamesIn(h) + NamesIn(l)
  }

  lemma {:induction false} ShapeBinds(p: Ptrn, v: Value)
    ensures Bound(ShapeOf(p), v) == Bind(p, v)
    ensures Unmarked(ShapeOf(p))
    ensures NamesIn(ShapeOf(p)) == Names(p)
  {
    if p.PairPtrn? {
      ShapeBinds(p.head, HeadOf(v));
      ShapeBinds(p.tail, TailOf(v));
    }
  }

  lemma {:induction false} BoundNames(t: Tree, v: Value)
    ensures Bound(t, v).Keys == NamesIn(t)
  {
    if t.Node? {
      BoundNames(t.head, HeadOf(v));
      BoundNames(t.tail, TailOf(v));
    }
  }

  /** Running one `nth` instruction for each entry of a path. */
  function NthPath(v: Value, path: Path): Value
    decreases |path|
  {
    if path == [] then v else NthPath(NthOf(v, path[0]), path[1..])
  }

  lemma NthSquashed(v: Value, path: Path)
    ensures NthPath(v, Squash(path)) == NthPath(TailOf(v), path)
  {
    if |path| > 0 && path[0] != 0 {
      assert Squash(path)[1..] == path[1..];
    } else {
      assert NthOf(v, -1) == TailOf(v);
      assert ([-1] + path)[1..] == path;
    }
  }

  /** The path found for a name leads to the value the name is bound to, and unbound names have no path. */
  lemma {:induction false} SearchBinds(t: Tree, v: Value, x: string)
    requires Unmarked(t)
    ensures Search(t, x) == None <==> x !in Bound(t, v)
    ensures Search(t, x).Some? ==> NthPath(v, Search(t, x).value) == Bound(t, v)[x]
    decreases t
  {
    if t.Node? {
      SearchBinds(t.head, HeadOf(v), x);
      SearchBinds(t.tail, TailOf(v), x);
      if Search(t.head, x).Some? {
        var p := Search(t.head, x).value;
        assert ([1] + p)[1..] == p;
      } else if Search(t.tail, x).Some? {
        NthSquashed(v, Search(t.tail, x).value);
      }
    }
  }

  /** The component at the end of some steps; None when a step is taken on something that is not a pair. */
  function Component(v: Value, steps: seq<Dir>): Option<Value> {
    if steps == [] then Some(v)
    else if steps[0] == Stay then Component(v, steps[1..])
    else if !v.PairV? then None
    else Component(if steps[0] == Head then v.head else v.tail, steps[1..])
  }

  lemma {:induction false} MatchedStepsArePairs(globals: Bindings, rho: Bindings, p: Ptrn, v: Value, x: string,
                                                steps: seq<Dir>)
    requires Matches(globals, rho, p, v)
    requires Hit(ShapeOf(p), x, steps)
    ensures Component(v, steps).Some?
    decreases p
  {
    if steps != [] {
      assert steps[0] in steps;
      assert steps == [steps[0]] + steps[1..];
      HitBelow(ShapeOf(p), x, steps[0], steps[1..]);
      if steps[0] == Head {
        MatchedStepsArePairs(globals, rho, p.head, v.head, x, steps[1..]);
      } else {
        MatchedStepsArePairs(globals, rho, p.tail, v.tail, x, steps[1..]);
      }
    }
  }

  lemma {:induction false} NthComponent(v: Value, n: int, steps: seq<Dir>)
    requires Component(v, ExpandEntry(n) + steps).Some?
    ensures Component(v, ExpandEntry(n) + steps) == Component(NthOf(v, n), steps)
    decreases if n < 0 then -n else n
  {
    if -1 <= n <= 1 {
      UnitComponent(v, n, steps);
    } else {
      var m := if n > 0 then n - 1 else n + 1;
      TailComponent(v, n, m, steps);
      NthComponent(v.tail, m, steps);
    }
  }

  lemma UnitComponent(v: Value, n: int, steps: seq<Dir>)
    requires -1 <= n <= 1 && Component(v, ExpandEntry(n) + steps).Some?
    ensures Component(v, ExpandEntry(n) + steps) == Component(NthOf(v, n), steps)
  {
    var dir := if n == 0 then Stay else if n == 1 then Head else Tail;
    assert ExpandEntry(n) == [dir];
    assert ([dir] + steps)[1..] == steps;
    assert n == -1 ==> NthOf(v, n) == TailOf(v);
  }

  /** A longer entry begins with the tail. */
  lemma TailComponent(v: Value, n: int, m: int, steps: seq<Dir>)
    requires (n > 1 && m == n - 1) || (n < -1 && m == n + 1)
    requires Component(v, ExpandEntry(n) + steps).Some?
    ensures v.PairV? && NthOf(v, n) == NthOf(v.tail, m)
    ensures Component(v, ExpandEntry(n) + steps) == Component(v.tail, ExpandEntry(m) + steps)
  {
    EntrySplits(n);
    assert ExpandEntry(-1) == [Tail];
    Associates([Tail], ExpandEntry(m), steps);
    TailStep(v, ExpandEntry(m) + steps);
  }

  lemma TailStep(v: Value, steps: seq<Dir>)
    ensures Component(v, [Tail] + steps) == if v.PairV? then Component(v.tail, steps) else None
  {
    assert ([Tail] + steps)[1..] == steps;
  }

  lemma {:induction false} PathComponent(v: Value, path: Path)
    requires Component(v, Expand(path)).Some?
    ensures Component(v, Expand(path)) == Some(NthPath(v, path))
    decreases |path|
  {
    if path != [] {
      NthComponent(v, path[0], Expand(path[1..]));
      PathComponent(NthOf(v, path[0]), path[1..]);
    }
  }

  /** After a match, the path of each bound name walks only through pairs, to the component the name is bound to. */
  lemma MatchedPathsWalkPairs(globals: Bindings, rho: Bindings, p: Ptrn, v: Value, x: string)
    requires Matches(globals, rho, p, v) && x in Names(p)
    ensures Search(ShapeOf(p), x).Some?
    ensures x in Bind(p, v)
    ensures Component(v, Expand(Search(ShapeOf(p), x).value)) == Some(Bind(p, v)[x])
  {
    BindNames(p, v);
    ShapeBinds(p, v);
    BoundNames(ShapeOf(p), v);
    SearchBinds(ShapeOf(p), v, x);
    SearchHits(ShapeOf(p), x);
    var path := Search(ShapeOf(p), x).value;
    MatchedStepsArePairs(globals, rho, p, v, x, Expand(path));
    PathComponent(v, path);
  }

  // ----- Environments -----

  /** A scope is a pattern pushed in front of an outer environment; each knows its depth on the stack. */
  datatype Env =
    | Base(tree: Tree, depth: int)
    | Scope(head: Tree, tail: Env, depth: int)

  function TreeOf(env: Env): Tree {
    match env
    case Base(t, _) => t
    case Scope(h, t, _) => Node(h, TreeOf(t), {})
  }

  function Known(env: Env): set<string> { NamesIn(TreeOf(env)) }

  // ----- What the generator accepts without reporting an error -----

  /** Every identifier pattern that a visit of the syntax tree comes across, in order. */
  function PtrnIdents(p: Ptrn): seq<string>
    decreases PtrnSize(p)
  {
    match p
    case IdentPtrn(x) => [x]
    case PairPtrn(h, t) => PtrnIdents(h) + PtrnIdents(t)
    case ValuePtrn(e) => ExprIdents(e)
    case _ => []
  }

  function ExprIdents(e: Expr): seq<string>
    decreases ExprSize(e)
  {
    match e
    case PairExpr(h, t) => ExprIdents(h) + ExprIdents(t)
    case IfExpr(l, r, x, n) => PtrnIdents(l) + PtrnIdents(r) + ExprIdents(x) + ExprIdents(n)
    case CaseExpr(s, c) => ExprIdents(s) + ChoiceIdents(c)
    case _ => []
  }

  function ChoiceIdents(c: Choice): seq<string>
    decreases ChoiceSize(c)
  {
    match c
    case CaseEnd => []
    case CaseChoice(p, x, n) => PtrnIdents(p) + ExprIdents(x) + ChoiceIdents(n)
  }

  predicate NoRepeats(s: seq<string>) {
    forall i, j :: 0 <= i < j < |s| ==> s[i] != s[j]
  }

  predicate Scoped(globals: Bindings, known: set<string>, e: Expr)
    decreases ExprSize(e)
  {
    match e
    case ConstExpr(_) => true
    case IdentExpr(x) => x != "_" && (x in known || x in globals)
    case PairExpr(h, t) => Scoped(globals, known, h) && Scoped(globals, known, t)
    case IfExpr(l, r, x, n) =>
      && Solve(l, r).Some?
      && var (p, arg) := Solve(l, r).value;
      && NoRepeats(PtrnIdents(p))
      && Scoped(globals, known, arg)
      && PtrnScoped(globals, known, p)
      && Scoped(globals, Names(p) + known, x)
      && Scoped(globals, known, n)
    case CaseExpr(s, c) => Scoped(globals, known, s) && ChoiceScoped(globals, known, c)
  }

  predicate PtrnScoped(globals: Bindings, known: set<string>, p: Ptrn)
    decreases PtrnSize(p)
  {
    match p
    case PairPtrn(h, t) => PtrnScoped(globals, known, h) && PtrnScoped(globals, known, t)
    case ValuePtrn(e) => Scoped(globals, known, e)
    case _ => true
  }

  predicate ChoiceScoped(globals: Bindings, known: set<string>, c: Choice)
    decreases ChoiceSize(c)
  {
    match c
    case CaseEnd => true
    case CaseChoice(p, x, n) =>
      && NoRepeats(PtrnIdents(p))
      && PtrnScoped(globals, known, p)
      && Scoped(globals, Names(p) + known, x)
      && ChoiceScoped(globals, known, n)
  }

  /** The patterns the definitions of a statement put in front of a scope, in order. */
  function Declare(scope: Tree, s: Stmt): Tree
    decreases s
  {
    match s
    case DefStmt(p, _) => Node(ShapeOf(p), scope, {})
    case LetStmt(l, r) => if Solve(l, r).Some? then Node(ShapeOf(Solve(l, r).value.0), scope, {}) else scope
    case StmtPair(h, t) => Declare(Declare(scope, h), t)
    case _ => scope
  }

  function DefinedBy(s: Stmt): set<string> {
    match s
    case DefStmt(p, _) => Names(p)
    case LetStmt(l, r) => if Solve(l, r).Some? then Names(Solve(l, r).value.0) else {}
    case StmtPair(h, t) => DefinedBy(h) + DefinedBy(t)
    case _ => {}
  }

  predicate DefScoped(globals: Bindings, known: set<string>, p: Ptrn, e: Expr) {
    NoRepeats(PtrnIdents(p)) && Scoped(globals, known, e) && PtrnScoped(globals, known, p)
  }

  predicate StmtScoped(globals: Bindings, known: set<string>, s: Stmt)
    decreases s
  {
    match s
    case DefStmt(p, e) => DefScoped(globals, known, p, e)
    case LetStmt(l, r) =>
      Solve(l, r).Some? && DefScoped(globals, known, Solve(l, r).value.0, Solve(l, r).value.1)
    case SendStmt(m, t) => Scoped(globals, known, m) && Scoped(globals, known, t)
    case ThrowStmt(e) => Scoped(globals, known, e)
    case StmtPair(h, t) => StmtScoped(globals, known, h) && StmtScoped(globals, DefinedBy(h) + known, t)
    case EmptyStmt => true
  }

  lemma {:induction false} DeclareNames(scope: Tree, s: Stmt)
    requires Unmarked(scope)
    ensures NamesIn(Declare(scope, s)) == DefinedBy(s) + NamesIn(scope)
    ensures Unmarked(Declare(scope, s))
    decreases s
  {
    match s
    case DefStmt(p, _) => ShapeBinds(p, UndefV);
    case LetStmt(l, r) => if Solve(l, r).Some? { ShapeBinds(Solve(l, r).value.0, UndefV); }
    case StmtPair(h, t) =>
      DeclareNames(scope, h);
      DeclareNames(Declare(scope, h), t);
    case _ =>
  }
}
