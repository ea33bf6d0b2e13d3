/**
 What it means for a piece of generated code to be right, and why code composed
 the way the generator composes it is right when its parts are.

 Every notion speaks of all stacks that are deep enough and of every later state of
 the module's definitions, so it can be stated while code is still being generated.
 */
module HumusCorrect {
  import opened Prelude
  import opened HumusSyntax
  import opened HumusPaths
  import opened HumusMachine
  import opened HumusEval
  import opened HumusEnv

  ghost predicate Extends(a: Definitions, b: Definitions) {
    forall l <- a :: l in b && b[l] == a[l]
  }

  /** The same environment at another depth of the stack. */
  function At(env: Env, depth: int): (r: Env)
    ensures r.depth == depth && TreeOf(r) == TreeOf(env)
    ensures depth == env.depth ==> r == env
  {
    match env
    case Base(t, _) => Base(t, depth)
    case Scope(h, t, _) => Scope(h, t, depth)
  }

  /** The names in scope, read off the stack item that mirrors the static environment. */
  function Locals(env: Env, s: Stack): Bindings
    requires 1 <= env.depth <= |s|
  {
    Bound(TreeOf(env), s[env.depth - 1])
  }

  ghost predicate YieldsOn(defs: Definitions, g: Bindings, env: Env, e: Expr, c: Code, k: Code, s: Stack,
                           sent: Messages)
    requires 1 <= env.depth <= |s|
  {
    Reaches(defs, Running(c, s, sent), Running(k, [Eval(g, Locals(env, s), e)] + s, sent))
  }

  /** The code reaches its continuation with exactly the value of the expression pushed. */
  ghost predicate Yields(defs0: Definitions, g: Bindings, env: Env, e: Expr, c: Code, k: Code) {
    forall defs, s: Stack, sent | Extends(defs0, defs) && 1 <= env.depth <= |s| ::
      YieldsOn(defs, g, env, e, c, k, s, sent)
  }

  ghost predicate DecidesOn(defs: Definitions, g: Bindings, env: Env, p: Ptrn, c: Code, k: Code, s: Stack,
                            sent: Messages)
    requires 2 <= env.depth <= |s|
  {
    Reaches(defs, Running(c, s, sent), Running(k, [BoolV(Matches(g, Locals(env, s), p, s[0]))] + s[1..], sent))
  }

  /** The code replaces the top of the stack by whether it matches the pattern. */
  ghost predicate Decides(defs0: Definitions, g: Bindings, env: Env, p: Ptrn, c: Code, k: Code) {
    forall defs, s: Stack, sent | Extends(defs0, defs) && 2 <= env.depth <= |s| ::
      DecidesOn(defs, g, env, p, c, k, s, sent)
  }

  ghost predicate SelectsOn(defs: Definitions, g: Bindings, env: Env, ch: Choice, c: Code, k: Code, s: Stack,
                            sent: Messages)
    requires 2 <= env.depth <= |s|
  {
    Reaches(defs, Running(c, s, sent), Running(k, [Choose(g, Locals(env, s), ch, s[0])] + s[1..], sent))
  }

  /** The code replaces the top of the stack by the result of the choice it selects. */
  ghost predicate Selects(defs0: Definitions, g: Bindings, env: Env, ch: Choice, c: Code, k: Code) {
    forall defs, s: Stack, sent | Extends(defs0, defs) && 2 <= env.depth <= |s| ::
      SelectsOn(defs, g, env, ch, c, k, s, sent)
  }

  ghost predicate WalksOn(defs: Definitions, path: Path, c: Code, k: Code, s: Stack, sent: Messages)
    requires |s| >= 1
  {
    Reaches(defs, Running(c, s, sent), Running(k, [NthPath(s[0], path)] + s[1..], sent))
  }

  /** The code replaces the top of the stack by the component at the end of the path. */
  ghost predicate Walks(path: Path, c: Code, k: Code) {
    forall defs, s: Stack, sent | |s| >= 1 :: WalksOn(defs, path, c, k, s, sent)
  }

  /** From the state, the machine ends as the statement does: with its new names in the same place, or aborted. */
  ghost predicate Delivers(defs: Definitions, a: State, k: Code, s: Stack, depth: int, tree: Tree, out: Outcome)
    requires 1 <= depth <= |s|
  {
    match out
    case Throw(reason) => Reaches(defs, a, Aborted(reason))
    case Next(rho, sent) => exists v :: Bound(tree, v) == rho && Reaches(defs, a, Running(k, s[depth - 1 := v], sent))
  }

  ghost predicate PerformsOn(defs: Definitions, g: Bindings, env: Env, tree: Tree, st: Stmt, c: Code, k: Code, s: Stack,
                             sent: Messages)
    requires 1 <= env.depth <= |s|
  {
    Delivers(defs, Running(c, s, sent), k, s, env.depth, tree, Execute(g, Locals(env, s), sent, st))
  }

  /** The code puts the environment extended by the statement in the place of the old one, or aborts as it does. */
  ghost predicate Performs(defs0: Definitions, g: Bindings, env: Env, tree: Tree, st: Stmt, c: Code, k: Code) {
    forall defs, s: Stack, sent | Extends(defs0, defs) && 1 <= env.depth <= |s| ::
      PerformsOn(defs, g, env, tree, st, c, k, s, sent)
  }

  // ----- Steps, backwards from a goal -----

  lemma OpThen(defs: Definitions, op: Op, k: Code, s: Stack, s': Stack, sent: Messages, goal: State)
    requires Apply(op, s) == Some(s') && !op.Send?
    requires Reaches(defs, Running(k, s', sent), goal)
    ensures Reaches(defs, Running(Instr(op, k), s, sent), goal)
  {
    First(defs, Running(Instr(op, k), s, sent), goal);
  }

  lemma IfThen(defs: Definitions, t: Code, f: Code, b: bool, s: Stack, sent: Messages, goal: State)
    requires Reaches(defs, Running(if b then t else f, s, sent), goal)
    ensures Reaches(defs, Running(If(t, f), [BoolV(b)] + s, sent), goal)
  {
    First(defs, Running(If(t, f), [BoolV(b)] + s, sent), goal);
  }

  lemma ExprThen(defs0: Definitions, defs: Definitions, g: Bindings, env: Env, e: Expr, c: Code, k: Code,
                 s: Stack, sent: Messages, goal: State)
    requires Yields(defs0, g, env, e, c, k) && Extends(defs0, defs) && 1 <= env.depth <= |s|
    requires Reaches(defs, Running(k, [Eval(g, Locals(env, s), e)] + s, sent), goal)
    ensures Reaches(defs, Running(c, s, sent), goal)
  {
    assert YieldsOn(defs, g, env, e, c, k, s, sent);
    Then(defs, Running(c, s, sent), Running(k, [Eval(g, Locals(env, s), e)] + s, sent), goal);
  }

  lemma MatchThen(defs0: Definitions, defs: Definitions, g: Bindings, env: Env, p: Ptrn, c: Code, k: Code,
                  s: Stack, sent: Messages, goal: State)
    requires Decides(defs0, g, env, p, c, k) && Extends(defs0, defs) && 2 <= env.depth <= |s|
    requires Reaches(defs, Running(k, [BoolV(Matches(g, Locals(env, s), p, s[0]))] + s[1..], sent), goal)
    ensures Reaches(defs, Running(c, s, sent), goal)
  {
    assert DecidesOn(defs, g, env, p, c, k, s, sent);
    Then(defs, Running(c, s, sent),
         Running(k, [BoolV(Matches(g, Locals(env, s), p, s[0]))] + s[1..], sent), goal);
  }

  /** Matching a pattern and branching on the outcome. */
  lemma MatchBranches(defs0: Definitions, defs: Definitions, g: Bindings, env: Env, p: Ptrn, c: Code, t: Code, f: Code,
                      s: Stack, sent: Messages, goal: State)
    requires Decides(defs0, g, env, p, c, If(t, f)) && Extends(defs0, defs) && 2 <= env.depth <= |s|
    requires Reaches(defs, Running(if Matches(g, Locals(env, s), p, s[0]) then t else f, s[1..], sent), goal)
    ensures Reaches(defs, Running(c, s, sent), goal)
  {
    IfThen(defs, t, f, Matches(g, Locals(env, s), p, s[0]), s[1..], sent, goal);
    MatchThen(defs0, defs, g, env, p, c, If(t, f), s, sent, goal);
  }

  // ----- Later definitions -----

  lemma ExtendsTransitive(a: Definitions, b: Definitions, c: Definitions)
    requires Extends(a, b) && Extends(b, c)
    ensures Extends(a, c)
  {
  }

  lemma YieldsLater(a: Definitions, b: Definitions, g: Bindings, env: Env, e: Expr, c: Code, k: Code)
    requires Yields(a, g, env, e, c, k) && Extends(a, b)
    ensures Yields(b, g, env, e, c, k)
  {
    forall defs, s: Stack, sent | Extends(b, defs) && 1 <= env.depth <= |s|
      ensures YieldsOn(defs, g, env, e, c, k, s, sent)
    {
      ExtendsTransitive(a, b, defs);
    }
  }

  lemma DecidesLater(a: Definitions, b: Definitions, g: Bindings, env: Env, p: Ptrn, c: Code, k: Code)
    requires Decides(a, g, env, p, c, k) && Extends(a, b)
    ensures Decides(b, g, env, p, c, k)
  {
    forall defs, s: Stack, sent | Extends(b, defs) && 2 <= env.depth <= |s|
      ensures DecidesOn(defs, g, env, p, c, k, s, sent)
    {
      ExtendsTransitive(a, b, defs);
    }
  }

  lemma SelectsLater(a: Definitions, b: Definitions, g: Bindings, env: Env, ch: Choice, c: Code, k: Code)
    requires Selects(a, g, env, ch, c, k) && Extends(a, b)
    ensures Selects(b, g, env, ch, c, k)
  {
    forall defs, s: Stack, sent | Extends(b, defs) && 2 <= env.depth <= |s|
      ensures SelectsOn(defs, g, env, ch, c, k, s, sent)
    {
      ExtendsTransitive(a, b, defs);
    }
  }

  lemma PerformsLater(a: Definitions, b: Definitions, g: Bindings, env: Env, tree: Tree, st: Stmt, c: Code, k: Code)
    requires Performs(a, g, env, tree, st, c, k) && Extends(a, b)
    ensures Performs(b, g, env, tree, st, c, k)
  {
    forall defs, s: Stack, sent | Extends(b, defs) && 1 <= env.depth <= |s|
      ensures PerformsOn(defs, g, env, tree, st, c, k, s, sent)
    {
      ExtendsTransitive(a, b, defs);
    }
  }

  // ----- Expressions -----

  lemma PushYields(defs0: Definitions, g: Bindings, env: Env, e: Expr, v: Value, k: Code)
    requires forall rho: Bindings :: rho.Keys == Known(env) ==> Eval(g, rho, e) == v
    ensures Yields(defs0, g, env, e, Instr(Push(v), k), k)
  {
    forall defs, s: Stack, sent | Extends(defs0, defs) && 1 <= env.depth <= |s|
      ensures YieldsOn(defs, g, env, e, Instr(Push(v), k), k, s, sent)
    {
      BoundNames(TreeOf(env), s[env.depth - 1]);
      var goal := Running(k, [v] + s, sent);
      Here(defs, goal);
      OpThen(defs, Push(v), k, s, [v] + s, sent, goal);
    }
  }

  lemma WalkOn(path: Path, imm: int, c: Code, k: Code)
    requires Walks(path, c, k)
    ensures Walks([imm] + path, Instr(TakeNth(imm), c), k)
  {
    forall defs, s: Stack, sent | |s| >= 1
      ensures WalksOn(defs, [imm] + path, Instr(TakeNth(imm), c), k, s, sent)
    {
      var s' := [NthOf(s[0], imm)] + s[1..];
      assert ([imm] + path)[1..] == path;
      assert WalksOn(defs, path, c, k, s', sent);
      assert s'[1..] == s[1..];
      OpThen(defs, TakeNth(imm), c, s, s', sent, Running(k, [NthPath(s'[0], path)] + s[1..], sent));
    }
  }

  lemma IdentYields(defs0: Definitions, g: Bindings, env: Env, x: string, path: Path, c: Code, k: Code)
    requires Unmarked(TreeOf(env)) && Search(TreeOf(env), x) == Some(path)
    requires Walks(path, c, k)
    ensures Yields(defs0, g, env, IdentExpr(x), Instr(Pick(env.depth), c), k)
  {
    var n := env.depth;
    forall defs, s: Stack, sent | Extends(defs0, defs) && 1 <= n <= |s|
      ensures YieldsOn(defs, g, env, IdentExpr(x), Instr(Pick(n), c), k, s, sent)
    {
      var s' := [s[n - 1]] + s;
      SearchBinds(TreeOf(env), s[n - 1], x);
      assert WalksOn(defs, path, c, k, s', sent);
      assert s'[1..] == s;
      OpThen(defs, Pick(n), c, s, s', sent, Running(k, [NthPath(s'[0], path)] + s, sent));
    }
  }

  ghost predicate TakesOn(defs: Definitions, g: Bindings, env: Env, p: Ptrn, x: Expr, t: Code, k: Code, v: Value,
                          s: Stack,
                          sent: Messages)
    requires 1 <= env.depth <= |s|
  {
    Reaches(defs, Running(t, [v, s[env.depth - 1]] + s, sent),
            Running(k, [Eval(g, Locals(env, s) + Bind(p, v), x)] + s, sent))
  }

  /** With a matched value and a copy of the environment on top, the code yields the expression with the names bound. */
  ghost predicate Takes(defs0: Definitions, g: Bindings, env: Env, p: Ptrn, x: Expr, t: Code, k: Code) {
    forall defs, v, s: Stack, sent | Extends(defs0, defs) && 1 <= env.depth <= |s| ::
      TakesOn(defs, g, env, p, x, t, k, v, s, sent)
  }

  ghost predicate SkipsOn(defs: Definitions, g: Bindings, env: Env, x: Expr, f: Code, k: Code, v: Value, s: Stack,
                          sent: Messages)
    requires 1 <= env.depth <= |s|
  {
    Reaches(defs, Running(f, [v, s[env.depth - 1]] + s, sent), Running(k, [Eval(g, Locals(env, s), x)] + s, sent))
  }

  /**
   With a value that does not match and a copy of the environment on top, the code drops both and yields the
   expression.
   */
  ghost predicate Skips(defs0: Definitions, g: Bindings, env: Env, x: Expr, f: Code, k: Code) {
    forall defs, v, s: Stack, sent | Extends(defs0, defs) && 1 <= env.depth <= |s| ::
      SkipsOn(defs, g, env, x, f, k, v, s, sent)
  }

  lemma TakesCode(defs0: Definitions, g: Bindings, env: Env, inner: Env, p: Ptrn, x: Expr, c: Code, k: Code)
    requires inner.Scope? && inner.head == ShapeOf(p) && TreeOf(inner.tail) == TreeOf(env) && inner.depth == 1
    requires Yields(defs0, g, inner, x, c, Instr(Roll(-2), Instr(Drop(1), k)))
    ensures Takes(defs0, g, env, p, x, Instr(MakePair(1), c), k)
  {
    forall defs, v, s: Stack, sent | Extends(defs0, defs) && 1 <= env.depth <= |s|
      ensures TakesOn(defs, g, env, p, x, Instr(MakePair(1), c), k, v, s, sent)
    {
      IfBranchYields(defs0, defs, g, inner, Locals(env, s), p, v, s[env.depth - 1], x, c, k, s, sent);
    }
  }

  lemma SkipsCode(defs0: Definitions, g: Bindings, env: Env, x: Expr, c: Code, k: Code)
    requires Yields(defs0, g, env, x, c, k)
    ensures Skips(defs0, g, env, x, Instr(Drop(2), c), k)
  {
    forall defs, v, s: Stack, sent | Extends(defs0, defs) && 1 <= env.depth <= |s|
      ensures SkipsOn(defs, g, env, x, Instr(Drop(2), c), k, v, s, sent)
    {
      var goal := Running(k, [Eval(g, Locals(env, s), x)] + s, sent);
      var s2 := [v, s[env.depth - 1]] + s;
      Here(defs, goal);
      ExprThen(defs0, defs, g, env, x, c, k, s, sent, goal);
      assert s2[2..] == s;
      OpThen(defs, Drop(2), c, s2, s, sent, goal);
    }
  }

  lemma IfYields(defs0: Definitions, g: Bindings, env: Env, e: Expr, p: Ptrn, arg: Expr,
                 c1: Code, c2: Code, t: Code, f: Code, c: Code, k: Code)
    requires e.IfExpr? && Solve(e.left, e.right) == Some((p, arg))
    requires Yields(defs0, g, At(env, env.depth + 1), arg, c1, Instr(Dup(1), c2))
    requires Decides(defs0, g, At(env, env.depth + 3), p, c2, If(t, f))
    requires Takes(defs0, g, env, p, e.expr, t, k)
    requires Skips(defs0, g, env, e.next, f, k)
    requires c == Instr(Pick(env.depth), c1)
    ensures Yields(defs0, g, env, e, c, k)
  {
    forall defs, s: Stack, sent | Extends(defs0, defs) && 1 <= env.depth <= |s|
      ensures YieldsOn(defs, g, env, e, c, k, s, sent)
    {
      var v := Eval(g, Locals(env, s), arg);
      assert TakesOn(defs, g, env, p, e.expr, t, k, v, s, sent);
      assert SkipsOn(defs, g, env, e.next, f, k, v, s, sent);
      IfReaches(defs0, defs, g, env, p, arg, c1, c2, t, f, s, sent, Running(k, [Eval(g, Locals(env, s), e)] + s, sent));
    }
  }

  lemma IfReaches(defs0: Definitions, defs: Definitions, g: Bindings, env: Env, p: Ptrn, arg: Expr,
                  c1: Code, c2: Code, t: Code, f: Code, s: Stack, sent: Messages, goal: State)
    requires Extends(defs0, defs) && 1 <= env.depth <= |s|
    requires Yields(defs0, g, At(env, env.depth + 1), arg, c1, Instr(Dup(1), c2))
    requires Decides(defs0, g, At(env, env.depth + 3), p, c2, If(t, f))
    requires var v := Eval(g, Locals(env, s), arg);
             Reaches(defs, Running(if Matches(g, Locals(env, s), p, v) then t else f, [v, s[env.depth - 1]] + s, sent),
                     goal)
    ensures Reaches(defs, Running(Instr(Pick(env.depth), c1), s, sent), goal)
  {
    var n, rho := env.depth, Locals(env, s);
    var s1 := [s[n - 1]] + s;
    var s2 := [Eval(g, rho, arg)] + s1;
    assert s2 == [Eval(g, rho, arg), s[n - 1]] + s;
    MatchOfTop(defs0, defs, g, At(env, n + 2), rho, p, c2, t, f, s2, sent, goal);
    ExprThen(defs0, defs, g, At(env, n + 1), arg, c1, Instr(Dup(1), c2), s1, sent, goal);
    OpThen(defs, Pick(n), c1, s, s1, sent, goal);
  }

  /** Evaluating inside an environment that is extended by pairing a matched value onto the outer one. */
  lemma EvalInside(defs0: Definitions, defs: Definitions, g: Bindings, inner: Env, rho: Bindings, p: Ptrn, v: Value,
                   envv: Value, x: Expr, c: Code, k: Code, s: Stack, sent: Messages, goal: State)
    requires inner.Scope? && inner.head == ShapeOf(p) && Bound(TreeOf(inner.tail), envv) == rho && inner.depth == 1
    requires Yields(defs0, g, inner, x, c, k) && Extends(defs0, defs)
    requires Reaches(defs, Running(k, [Eval(g, rho + Bind(p, v), x), PairV(v, envv)] + s, sent), goal)
    ensures Reaches(defs, Running(Instr(MakePair(1), c), [v, envv] + s, sent), goal)
  {
    var s1 := [PairV(v, envv)] + s;
    var r := Eval(g, rho + Bind(p, v), x);
    ShapeBinds(p, v);
    assert [r] + s1 == [r, PairV(v, envv)] + s;
    ExprThen(defs0, defs, g, inner, x, c, k, s1, sent, goal);
    PairOfTwo(v, envv, s);
    OpThen(defs, MakePair(1), c, [v, envv] + s, s1, sent, goal);
  }

  lemma IfBranchYields(defs0: Definitions, defs: Definitions, g: Bindings, inner: Env, rho: Bindings, p: Ptrn,
                       v: Value, envv: Value, x: Expr, c: Code, k: Code, s: Stack, sent: Messages)
    requires inner.Scope? && inner.head == ShapeOf(p) && Bound(TreeOf(inner.tail), envv) == rho && inner.depth == 1
    requires Yields(defs0, g, inner, x, c, Instr(Roll(-2), Instr(Drop(1), k))) && Extends(defs0, defs)
    ensures Reaches(defs, Running(Instr(MakePair(1), c), [v, envv] + s, sent),
                    Running(k, [Eval(g, rho + Bind(p, v), x)] + s, sent))
  {
    var env' := PairV(v, envv);
    var r := Eval(g, rho + Bind(p, v), x);
    var goal := Running(k, [r] + s, sent);
    var s4, s5 := [r, env'] + s, [env', r] + s;
    Here(defs, goal);
    assert s5[1..] == [r] + s;
    OpThen(defs, Drop(1), k, s5, [r] + s, sent, goal);
    assert s4[1..2] + [s4[0]] + s4[2..] == s5;
    OpThen(defs, Roll(-2), Instr(Drop(1), k), s4, s5, sent, goal);
    EvalInside(defs0, defs, g, inner, rho, p, v, envv, x, c, Instr(Roll(-2), Instr(Drop(1), k)), s, sent, goal);
  }

  // ----- Pairs -----

  function Flatten(e: Expr): (elements: seq<Expr>)
    ensures |elements| >= 1
    ensures e.PairExpr? ==> |elements| >= 2
  {
    if e.PairExpr? then [e.head] + Flatten(e.tail) else [e]
  }

  function Values(g: Bindings, rho: Bindings, es: seq<Expr>): (vs: Stack)
    ensures |vs| == |es|
  {
    if es == [] then [] else [Eval(g, rho, es[0])] + Values(g, rho, es[1..])
  }

  lemma {:induction false} FlattenedValue(g: Bindings, rho: Bindings, e: Expr)
    ensures var vs := Values(g, rho, Flatten(e));
            ListOf(vs[..|vs| - 1], vs[|vs| - 1]) == Eval(g, rho, e)
    decreases e
  {
    if e.PairExpr? {
      FlattenedValue(g, rho, e.tail);
      var es := Flatten(e);
      assert es[1..] == Flatten(e.tail);
      var vs := Values(g, rho, es);
      assert vs[1..] == Values(g, rho, Flatten(e.tail));
      assert vs[..|vs| - 1][1..] == vs[1..][..|vs| - 2];
    } else {
      assert Flatten(e)[1..] == [];
    }
  }

  lemma {:induction false} ValuesFrom(g: Bindings, rho: Bindings, es: seq<Expr>, i: nat)
    requires i < |es|
    ensures Values(g, rho, es[i..]) == [Eval(g, rho, es[i])] + Values(g, rho, es[i + 1..])
  {
    assert es[i..][1..] == es[i + 1..];
  }

  /** With the values of the elements from i on already pushed, the code computes the others and pairs them all up. */
  ghost predicate PairsUpFrom(defs: Definitions, g: Bindings, env: Env, es: seq<Expr>, i: nat, c: Code, k: Code,
                              s: Stack, sent: Messages)
    requires i <= |es| && |es| > 0 && 1 <= env.depth <= |s|
  {
    var vs := Values(g, Locals(env, s), es);
    Reaches(defs, Running(c, Values(g, Locals(env, s), es[i..]) + s, sent),
            Running(k, [ListOf(vs[..|vs| - 1], vs[|vs| - 1])] + s, sent))
  }

  ghost predicate PairsUp(defs0: Definitions, g: Bindings, env: Env, es: seq<Expr>, i: nat, c: Code, k: Code)
    requires i <= |es| && |es| > 0
  {
    forall defs, s: Stack, sent | Extends(defs0, defs) && 1 <= env.depth <= |s| ::
      PairsUpFrom(defs, g, env, es, i, c, k, s, sent)
  }

  lemma MakePairPairsUp(defs0: Definitions, g: Bindings, env: Env, es: seq<Expr>, k: Code)
    requires |es| > 0
    ensures PairsUp(defs0, g, env, es, 0, Instr(MakePair(|es| - 1), k), k)
  {
    var c := Instr(MakePair(|es| - 1), k);
    forall defs, s: Stack, sent | Extends(defs0, defs) && 1 <= env.depth <= |s|
      ensures PairsUpFrom(defs, g, env, es, 0, c, k, s, sent)
    {
      assert es[0..] == es;
      var vs := Values(g, Locals(env, s), es);
      var last := |vs| - 1;
      var all := vs + s;
      var goal := Running(k, [ListOf(vs[..last], vs[last])] + s, sent);
      assert all[..last] == vs[..last] && all[last] == vs[last] && all[last + 1..] == s;
      Here(defs, goal);
      OpThen(defs, MakePair(|es| - 1), k, all, [ListOf(vs[..last], vs[last])] + s, sent, goal);
    }
  }

  lemma ElementPairsUp(defs0: Definitions, g: Bindings, env: Env, es: seq<Expr>, i: nat, c: Code, c': Code, k: Code)
    requires i < |es|
    requires PairsUp(defs0, g, env, es, i, c, k)
    requires Yields(defs0, g, At(env, env.depth + (|es| - i - 1)), es[i], c', c)
    ensures PairsUp(defs0, g, env, es, i + 1, c', k)
  {
    var next := i + 1;
    forall defs, s: Stack, sent | Extends(defs0, defs) && 1 <= env.depth <= |s|
      ensures PairsUpFrom(defs, g, env, es, next, c', k, s, sent)
    {
      assert PairsUpFrom(defs, g, env, es, i, c, k, s, sent);
      ElementPushed(defs0, defs, g, env, es, i, c, c', s, sent,
                    Running(k, [ListOf(Values(g, Locals(env, s), es)[..|es| - 1],
                                       Values(g, Locals(env, s), es)[|es| - 1])] + s, sent));
    }
  }

  lemma ElementPushed(defs0: Definitions, defs: Definitions, g: Bindings, env: Env, es: seq<Expr>, i: nat, c: Code,
                      c': Code,
                      s: Stack, sent: Messages, goal: State)
    requires i < |es| && Extends(defs0, defs) && 1 <= env.depth <= |s|
    requires Yields(defs0, g, At(env, env.depth + (|es| - i - 1)), es[i], c', c)
    requires Reaches(defs, Running(c, Values(g, Locals(env, s), es[i..]) + s, sent), goal)
    ensures Reaches(defs, Running(c', Values(g, Locals(env, s), es[i + 1..]) + s, sent), goal)
  {
    var rho := Locals(env, s);
    var later := Values(g, rho, es[i + 1..]);
    ValuesFrom(g, rho, es, i);
    assert Values(g, rho, es[i..]) + s == [Eval(g, rho, es[i])] + (later + s);
    var env' := At(env, env.depth + (|es| - i - 1));
    assert (later + s)[env'.depth - 1] == s[env.depth - 1];
    ExprThen(defs0, defs, g, env', es[i], c', c, later + s, sent, goal);
  }

  lemma PairsUpLater(a: Definitions, b: Definitions, g: Bindings, env: Env, es: seq<Expr>, i: nat, c: Code, k: Code)
    requires i <= |es| && |es| > 0 && PairsUp(a, g, env, es, i, c, k) && Extends(a, b)
    ensures PairsUp(b, g, env, es, i, c, k)
  {
    forall defs, s: Stack, sent | Extends(b, defs) && 1 <= env.depth <= |s|
      ensures PairsUpFrom(defs, g, env, es, i, c, k, s, sent)
    {
      ExtendsTransitive(a, b, defs);
    }
  }

  lemma PairYields(defs0: Definitions, g: Bindings, env: Env, e: Expr, c: Code, k: Code)
    requires PairsUp(defs0, g, env, Flatten(e), |Flatten(e)|, c, k)
    ensures Yields(defs0, g, env, e, c, k)
  {
    forall defs, s: Stack, sent | Extends(defs0, defs) && 1 <= env.depth <= |s|
      ensures YieldsOn(defs, g, env, e, c, k, s, sent)
    {
      var es := Flatten(e);
      FlattenedValue(g, Locals(env, s), e);
      assert PairsUpFrom(defs, g, env, es, |es|, c, k, s, sent);
      assert Values(g, Locals(env, s), es[|es|..]) + s == s;
    }
  }

  // ----- Pattern matching -----

  lemma AlwaysDecides(defs0: Definitions, g: Bindings, env: Env, p: Ptrn, k: Code)
    requires p.AnyPtrn? || p.IdentPtrn?
    ensures Decides(defs0, g, env, p, Instr(Drop(1), Instr(Push(BoolV(true)), k)), k)
  {
    forall defs, s: Stack, sent | Extends(defs0, defs) && 2 <= env.depth <= |s|
      ensures DecidesOn(defs, g, env, p, Instr(Drop(1), Instr(Push(BoolV(true)), k)), k, s, sent)
    {
      ReplaceTop(defs, true, k, s, sent);
    }
  }

  lemma ReplaceTop(defs: Definitions, b: bool, k: Code, s: Stack, sent: Messages)
    requires |s| >= 1
    ensures Reaches(defs, Running(Instr(Drop(1), Instr(Push(BoolV(b)), k)), s, sent),
                    Running(k, [BoolV(b)] + s[1..], sent))
  {
    var goal := Running(k, [BoolV(b)] + s[1..], sent);
    Here(defs, goal);
    OpThen(defs, Push(BoolV(b)), k, s[1..], [BoolV(b)] + s[1..], sent, goal);
    OpThen(defs, Drop(1), Instr(Push(BoolV(b)), k), s, s[1..], sent, goal);
  }

  lemma ConstDecides(defs0: Definitions, g: Bindings, env: Env, p: Ptrn, k: Code)
    requires p.ConstPtrn?
    ensures Decides(defs0, g, env, p, Instr(EqTo(Atom(p.value)), k), k)
  {
    forall defs, s: Stack, sent | Extends(defs0, defs) && 2 <= env.depth <= |s|
      ensures DecidesOn(defs, g, env, p, Instr(EqTo(Atom(p.value)), k), k, s, sent)
    {
      var goal := Running(k, [BoolV(s[0] == Atom(p.value))] + s[1..], sent);
      Here(defs, goal);
      OpThen(defs, EqTo(Atom(p.value)), k, s, [BoolV(s[0] == Atom(p.value))] + s[1..], sent, goal);
    }
  }

  lemma ValueDecides(defs0: Definitions, g: Bindings, env: Env, p: Ptrn, c: Code, k: Code)
    requires p.ValuePtrn?
    requires Yields(defs0, g, env, p.expr, c, Instr(Push(CodeV(k)), Instr(Push(EqProc), Jump)))
    ensures Decides(defs0, g, env, p, c, k)
  {
    forall defs, s: Stack, sent | Extends(defs0, defs) && 2 <= env.depth <= |s|
      ensures DecidesOn(defs, g, env, p, c, k, s, sent)
    {
      var v := Eval(g, Locals(env, s), p.expr);
      var goal := Running(k, [BoolV(s[0] == v)] + s[1..], sent);
      var s1 := [v] + s;
      var s2 := [CodeV(k)] + s1;
      var s3 := [EqProc] + s2;
      Here(defs, goal);
      assert s3[4..] == s[1..];
      First(defs, Running(Jump, s3, sent), goal);
      OpThen(defs, Push(EqProc), Jump, s2, s3, sent, goal);
      OpThen(defs, Push(CodeV(k)), Instr(Push(EqProc), Jump), s1, s2, sent, goal);
      ExprThen(defs0, defs, g, env, p.expr, c, Instr(Push(CodeV(k)), Instr(Push(EqProc), Jump)), s, sent, goal);
    }
  }

  function ReplaceFalse(k: Code): Code { Instr(Drop(1), Instr(Push(BoolV(false)), k)) }

  lemma PairDecides(defs0: Definitions, g: Bindings, env: Env, p: Ptrn, c1: Code, c2: Code, c: Code, k: Code)
    requires p.PairPtrn?
    requires Decides(defs0, g, env, p.tail, c2, k)
    requires Decides(defs0, g, At(env, env.depth + 1), p.head, c1,
                     If(c2, ReplaceFalse(k)))
    requires c == Instr(Dup(1), Instr(IsPair, If(Instr(Part(1), c1), ReplaceFalse(k))))
    ensures Decides(defs0, g, env, p, c, k)
  {
    var no := ReplaceFalse(k);
    var yes := Instr(Part(1), c1);
    forall defs, s: Stack, sent | Extends(defs0, defs) && 2 <= env.depth <= |s|
      ensures DecidesOn(defs, g, env, p, c, k, s, sent)
    {
      var goal := Running(k, [BoolV(Matches(g, Locals(env, s), p, s[0]))] + s[1..], sent);
      if s[0].PairV? {
        PartsDecide(defs0, defs, g, env, p, c1, c2, k, s, sent);
      } else {
        ReplaceTop(defs, false, k, s, sent);
      }
      PairBranches(defs, yes, no, s, sent, goal);
    }
  }

  /** The code branches on whether the top of the stack is a pair, which stays there. */
  lemma PairBranches(defs: Definitions, yes: Code, no: Code, s: Stack, sent: Messages, goal: State)
    requires s != [] && Reaches(defs, Running(if s[0].PairV? then yes else no, s, sent), goal)
    ensures Reaches(defs, Running(Instr(Dup(1), Instr(IsPair, If(yes, no))), s, sent), goal)
  {
    IfThen(defs, yes, no, s[0].PairV?, s, sent, goal);
    var s1 := [s[0]] + s;
    assert s1[1..] == s && s[..1] + s == s1;
    OpThen(defs, IsPair, If(yes, no), s1, [BoolV(s[0].PairV?)] + s, sent, goal);
    OpThen(defs, Dup(1), Instr(IsPair, If(yes, no)), s, s1, sent, goal);
  }

  /** With both parts on the stack, the head is tested first, and the tail only if that matches. */
  lemma BothDecide(defs0: Definitions, defs: Definitions, g: Bindings, env: Env, p: Ptrn, c1: Code, c2: Code, k: Code,
                   h: Value, t: Value, s: Stack, sent: Messages)
    requires p.PairPtrn? && Extends(defs0, defs) && 2 <= env.depth <= |s|
    requires Decides(defs0, g, env, p.tail, c2, k)
    requires Decides(defs0, g, At(env, env.depth + 1), p.head, c1, If(c2, ReplaceFalse(k)))
    ensures Reaches(defs, Running(c1, [h] + ([t] + s[1..]), sent),
                    Running(k, [BoolV(Matches(g, Locals(env, s), p.head, h) && Matches(g, Locals(env, s), p.tail, t))]
                            + s[1..], sent))
  {
    var rho := Locals(env, s);
    var goal := Running(k, [BoolV(Matches(g, rho, p.head, h) && Matches(g, rho, p.tail, t))] + s[1..], sent);
    var s1 := [t] + s[1..];
    var s2 := [h] + s1;
    var no := ReplaceFalse(k);
    assert s1[1..] == s[1..] && s2[1..] == s1;
    assert Reaches(defs, Running(if Matches(g, rho, p.head, h) then c2 else no, s1, sent), goal) by {
      if Matches(g, rho, p.head, h) {
        Here(defs, goal);
        MatchThen(defs0, defs, g, env, p.tail, c2, k, s1, sent, goal);
      } else {
        ReplaceTop(defs, false, k, s1, sent);
      }
    }
    MatchBranches(defs0, defs, g, At(env, env.depth + 1), p.head, c1, c2, no, s2, sent, goal);
  }

  lemma PartsDecide(defs0: Definitions, defs: Definitions, g: Bindings, env: Env, p: Ptrn, c1: Code, c2: Code, k: Code,
                    s: Stack, sent: Messages)
    requires p.PairPtrn? && Extends(defs0, defs) && 2 <= env.depth <= |s| && s[0].PairV?
    requires Decides(defs0, g, env, p.tail, c2, k)
    requires Decides(defs0, g, At(env, env.depth + 1), p.head, c1,
                     If(c2, ReplaceFalse(k)))
    ensures Reaches(defs, Running(Instr(Part(1), c1), s, sent),
                    Running(k, [BoolV(Matches(g, Locals(env, s), p, s[0]))] + s[1..], sent))
  {
    var h, t := s[0].head, s[0].tail;
    var goal := Running(k, [BoolV(Matches(g, Locals(env, s), p, s[0]))] + s[1..], sent);
    BothDecide(defs0, defs, g, env, p, c1, c2, k, h, t, s, sent);
    assert PartsOf(s[0], 1) == [h, t] by { assert PartsOf(t, 0) == [t]; }
    assert PartsOf(s[0], 1) + s[1..] == [h] + ([t] + s[1..]);
    OpThen(defs, Part(1), c1, s, [h] + ([t] + s[1..]), sent, goal);
  }

  // ----- Choices -----

  lemma EndSelects(defs0: Definitions, g: Bindings, env: Env, k: Code)
    ensures Selects(defs0, g, env, CaseEnd, Instr(Drop(1), Instr(Push(UndefV), k)), k)
  {
    forall defs, s: Stack, sent | Extends(defs0, defs) && 2 <= env.depth <= |s|
      ensures SelectsOn(defs, g, env, CaseEnd, Instr(Drop(1), Instr(Push(UndefV), k)), k, s, sent)
    {
      var goal := Running(k, [UndefV] + s[1..], sent);
      Here(defs, goal);
      OpThen(defs, Push(UndefV), k, s[1..], [UndefV] + s[1..], sent, goal);
      OpThen(defs, Drop(1), Instr(Push(UndefV), k), s, s[1..], sent, goal);
    }
  }

  ghost predicate ChosenOn(defs: Definitions, g: Bindings, env: Env, p: Ptrn, x: Expr, c: Code, k: Code, s: Stack,
                           sent: Messages)
    requires 2 <= env.depth <= |s|
  {
    Reaches(defs, Running(c, s, sent), Running(k, [Eval(g, Locals(env, s) + Bind(p, s[0]), x)] + s[1..], sent))
  }

  /** The code of a selected choice: extend the environment with the value, evaluate, drop the extension. */
  ghost predicate Chosen(defs0: Definitions, g: Bindings, env: Env, p: Ptrn, x: Expr, c: Code, k: Code) {
    forall defs, s: Stack, sent | Extends(defs0, defs) && 2 <= env.depth <= |s| ::
      ChosenOn(defs, g, env, p, x, c, k, s, sent)
  }

  lemma ChosenCode(defs0: Definitions, g: Bindings, env: Env, inner: Env, p: Ptrn, x: Expr, c1: Code, c: Code, k: Code)
    requires inner.Scope? && inner.head == ShapeOf(p) && TreeOf(inner.tail) == TreeOf(env) && inner.depth == 1
    requires Yields(defs0, g, inner, x, c1, Instr(Roll(2), Instr(Drop(1), k)))
    requires c == Instr(Pick(env.depth), Instr(Roll(2), Instr(MakePair(1), c1)))
    ensures Chosen(defs0, g, env, p, x, c, k)
  {
    var n := env.depth;
    forall defs, s: Stack, sent | Extends(defs0, defs) && 2 <= n <= |s|
      ensures ChosenOn(defs, g, env, p, x, c, k, s, sent)
    {
      ChoiceFinishes(defs0, defs, g, inner, Locals(env, s), p, s[0], s[n - 1], x, c1, k, s[1..], sent);
      var goal := Running(k, [Eval(g, Locals(env, s) + Bind(p, s[0]), x)] + s[1..], sent);
      var s1 := [s[n - 1]] + s;
      var s2 := [s[0], s[n - 1]] + s[1..];
      assert [s1[1]] + s1[..1] + s1[2..] == s2;
      OpThen(defs, Roll(2), Instr(MakePair(1), c1), s1, s2, sent, goal);
      OpThen(defs, Pick(n), Instr(Roll(2), Instr(MakePair(1), c1)), s, s1, sent, goal);
    }
  }

  lemma ChoiceFinishes(defs0: Definitions, defs: Definitions, g: Bindings, inner: Env, rho: Bindings, p: Ptrn,
                       v: Value, envv: Value, x: Expr, c: Code, k: Code, s: Stack, sent: Messages)
    requires inner.Scope? && inner.head == ShapeOf(p) && Bound(TreeOf(inner.tail), envv) == rho && inner.depth == 1
    requires Yields(defs0, g, inner, x, c, Instr(Roll(2), Instr(Drop(1), k))) && Extends(defs0, defs)
    ensures Reaches(defs, Running(Instr(MakePair(1), c), [v, envv] + s, sent),
                    Running(k, [Eval(g, rho + Bind(p, v), x)] + s, sent))
  {
    var env' := PairV(v, envv);
    var r := Eval(g, rho + Bind(p, v), x);
    var goal := Running(k, [r] + s, sent);
    var s4, s5 := [r, env'] + s, [env', r] + s;
    Here(defs, goal);
    assert s5[1..] == [r] + s;
    OpThen(defs, Drop(1), k, s5, [r] + s, sent, goal);
    assert [s4[1]] + s4[..1] + s4[2..] == s5;
    OpThen(defs, Roll(2), Instr(Drop(1), k), s4, s5, sent, goal);
    EvalInside(defs0, defs, g, inner, rho, p, v, envv, x, c, Instr(Roll(2), Instr(Drop(1), k)), s, sent, goal);
  }

  lemma ChoiceSelects(defs0: Definitions, g: Bindings, env: Env, ch: Choice, c1: Code, t: Code, f: Code, c: Code,
                      k: Code)
    requires ch.CaseChoice?
    requires Chosen(defs0, g, env, ch.ptrn, ch.expr, t, k)
    requires Selects(defs0, g, env, ch.next, f, k)
    requires Decides(defs0, g, At(env, env.depth + 1), ch.ptrn, c1, If(t, f))
    requires c == Instr(Dup(1), c1)
    ensures Selects(defs0, g, env, ch, c, k)
  {
    forall defs, s: Stack, sent | Extends(defs0, defs) && 2 <= env.depth <= |s|
      ensures SelectsOn(defs, g, env, ch, c, k, s, sent)
    {
      var goal := Running(k, [Choose(g, Locals(env, s), ch, s[0])] + s[1..], sent);
      assert ChosenOn(defs, g, env, ch.ptrn, ch.expr, t, k, s, sent);
      assert SelectsOn(defs, g, env, ch.next, f, k, s, sent);
      MatchOfTop(defs0, defs, g, env, Locals(env, s), ch.ptrn, c1, t, f, s, sent, goal);
    }
  }

  lemma CaseYields(defs0: Definitions, g: Bindings, env: Env, e: Expr, c1: Code, c: Code, k: Code)
    requires e.CaseExpr? && env.depth >= 1
    requires Selects(defs0, g, At(env, env.depth + 1), e.choice, c1, k)
    requires Yields(defs0, g, env, e.subject, c, c1)
    ensures Yields(defs0, g, env, e, c, k)
  {
    forall defs, s: Stack, sent | Extends(defs0, defs) && 1 <= env.depth <= |s|
      ensures YieldsOn(defs, g, env, e, c, k, s, sent)
    {
      var s1 := [Eval(g, Locals(env, s), e.subject)] + s;
      var goal := Running(k, [Eval(g, Locals(env, s), e)] + s, sent);
      assert s1[1..] == s && s1[env.depth] == s[env.depth - 1];
      assert SelectsOn(defs, g, At(env, env.depth + 1), e.choice, c1, k, s1, sent);
      ExprThen(defs0, defs, g, env, e.subject, c, c1, s, sent, goal);
    }
  }

  // ----- Statements -----

  lemma EmptyPerforms(defs0: Definitions, g: Bindings, env: Env, k: Code)
    ensures Performs(defs0, g, env, TreeOf(env), EmptyStmt, k, k)
  {
    forall defs, s: Stack, sent | Extends(defs0, defs) && 1 <= env.depth <= |s|
      ensures PerformsOn(defs, g, env, TreeOf(env), EmptyStmt, k, k, s, sent)
    {
      Here(defs, Running(k, s, sent));
      assert s[env.depth - 1 := s[env.depth - 1]] == s;
    }
  }

  lemma DeliversInTurn(defs: Definitions, a: State, c1: Code, k: Code, s: Stack, d: int, tree: Tree, v: Value,
                       sent: Messages, out: Outcome)
    requires 1 <= d <= |s|
    requires Reaches(defs, a, Running(c1, s[d - 1 := v], sent))
    requires Delivers(defs, Running(c1, s[d - 1 := v], sent), k, s[d - 1 := v], d, tree, out)
    ensures Delivers(defs, a, k, s, d, tree, out)
  {
    var b := Running(c1, s[d - 1 := v], sent);
    match out
    case Throw(reason) => Then(defs, a, b, Aborted(reason));
    case Next(rho, sent') =>
      var w :| Bound(tree, w) == rho && Reaches(defs, b, Running(k, s[d - 1 := v][d - 1 := w], sent'));
      assert s[d - 1 := v][d - 1 := w] == s[d - 1 := w];
      Then(defs, a, b, Running(k, s[d - 1 := w], sent'));
  }

  lemma PairPerforms(defs0: Definitions, g: Bindings, env: Env, mid: Env, tree: Tree, st: Stmt, c: Code, c1: Code,
                     k: Code)
    requires st.StmtPair? && mid.depth == env.depth
    requires Performs(defs0, g, env, TreeOf(mid), st.head, c, c1)
    requires Performs(defs0, g, mid, tree, st.tail, c1, k)
    ensures Performs(defs0, g, env, tree, st, c, k)
  {
    forall defs, s: Stack, sent | Extends(defs0, defs) && 1 <= env.depth <= |s|
      ensures PerformsOn(defs, g, env, tree, st, c, k, s, sent)
    {
      assert PerformsOn(defs, g, env, TreeOf(mid), st.head, c, c1, s, sent);
      var out := Execute(g, Locals(env, s), sent, st.head);
      if out.Next? {
        var v :| Bound(TreeOf(mid), v) == out.rho
                 && Reaches(defs, Running(c, s, sent), Running(c1, s[env.depth - 1 := v], out.sent));
        InTurn(defs0, defs, g, mid, tree, st.tail, c, c1, k, s, sent, v, out.sent);
      }
    }
  }

  lemma InTurn(defs0: Definitions, defs: Definitions, g: Bindings, mid: Env, tree: Tree, tail: Stmt,
               c: Code, c1: Code, k: Code, s: Stack, sent: Messages, v: Value, sent1: Messages)
    requires 1 <= mid.depth <= |s| && Extends(defs0, defs) && Performs(defs0, g, mid, tree, tail, c1, k)
    requires Reaches(defs, Running(c, s, sent), Running(c1, s[mid.depth - 1 := v], sent1))
    ensures Delivers(defs, Running(c, s, sent), k, s, mid.depth, tree, Execute(g, Bound(TreeOf(mid), v), sent1, tail))
  {
    var s1 := s[mid.depth - 1 := v];
    assert PerformsOn(defs, g, mid, tree, tail, c1, k, s1, sent1);
    assert Locals(mid, s1) == Bound(TreeOf(mid), v);
    DeliversInTurn(defs, Running(c, s, sent), c1, k, s, mid.depth, tree, v, sent1,
                   Execute(g, Bound(TreeOf(mid), v), sent1, tail));
  }

  lemma ThrowPerforms(defs0: Definitions, g: Bindings, env: Env, tree: Tree, st: Stmt, c: Code, k: Code)
    requires st.ThrowStmt?
    requires Yields(defs0, g, env, st.expr, c, Abort)
    ensures Performs(defs0, g, env, tree, st, c, k)
  {
    forall defs, s: Stack, sent | Extends(defs0, defs) && 1 <= env.depth <= |s|
      ensures PerformsOn(defs, g, env, tree, st, c, k, s, sent)
    {
      var v := Eval(g, Locals(env, s), st.expr);
      Here(defs, Aborted(v));
      First(defs, Running(Abort, [v] + s, sent), Aborted(v));
      ExprThen(defs0, defs, g, env, st.expr, c, Abort, s, sent, Aborted(v));
    }
  }

  function SendOrDrop(k: Code): Code {
    Instr(Dup(1), Instr(IsActor, If(Instr(Send, k), Instr(Drop(2), k))))
  }

  lemma SendReaches(defs: Definitions, msg: Value, to: Value, k: Code, s: Stack, sent: Messages)
    ensures Reaches(defs, Running(SendOrDrop(k), [to, msg] + s, sent),
                    Running(k, s, if to.ActorV? then sent + [(msg, to.id)] else sent))
  {
    var goal := Running(k, s, if to.ActorV? then sent + [(msg, to.id)] else sent);
    var s2 := [to, msg] + s;
    var s3 := [to] + s2;
    var branches := If(Instr(Send, k), Instr(Drop(2), k));
    Here(defs, goal);
    assert s2[2..] == s;
    First(defs, Running(if to.ActorV? then Instr(Send, k) else Instr(Drop(2), k), s2, sent), goal);
    IfThen(defs, Instr(Send, k), Instr(Drop(2), k), to.ActorV?, s2, sent, goal);
    assert s3[1..] == s2;
    OpThen(defs, IsActor, branches, s3, [BoolV(to.ActorV?)] + s2, sent, goal);
    assert s2[..1] + s2 == s3;
    OpThen(defs, Dup(1), Instr(IsActor, branches), s2, s3, sent, goal);
  }

  lemma SendEvaluates(defs0: Definitions, defs: Definitions, g: Bindings, env: Env, msg: Expr, to: Expr, c: Code,
                      c1: Code,
                      c2: Code, s: Stack, sent: Messages, goal: State)
    requires Extends(defs0, defs) && 1 <= env.depth <= |s|
    requires Yields(defs0, g, env, msg, c, c1)
    requires Yields(defs0, g, At(env, env.depth + 1), to, c1, c2)
    requires var rho := Locals(env, s);
             Reaches(defs, Running(c2, [Eval(g, rho, to)] + ([Eval(g, rho, msg)] + s), sent), goal)
    ensures Reaches(defs, Running(c, s, sent), goal)
  {
    var d, rho := env.depth, Locals(env, s);
    var s1 := [Eval(g, rho, msg)] + s;
    assert s1[d] == s[d - 1];
    ExprThen(defs0, defs, g, At(env, d + 1), to, c1, c2, s1, sent, goal);
    ExprThen(defs0, defs, g, env, msg, c, c1, s, sent, goal);
  }

  lemma SendPerforms(defs0: Definitions, g: Bindings, env: Env, st: Stmt, c: Code, c1: Code, k: Code)
    requires st.SendStmt? && env.depth >= 1
    requires Yields(defs0, g, env, st.msg, c, c1)
    requires Yields(defs0, g, At(env, env.depth + 1), st.to, c1, SendOrDrop(k))
    ensures Performs(defs0, g, env, TreeOf(env), st, c, k)
  {
    var d := env.depth;
    forall defs, s: Stack, sent | Extends(defs0, defs) && 1 <= d <= |s|
      ensures PerformsOn(defs, g, env, TreeOf(env), st, c, k, s, sent)
    {
      var rho := Locals(env, s);
      var msg, to := Eval(g, rho, st.msg), Eval(g, rho, st.to);
      var goal := Running(k, s, if to.ActorV? then sent + [(msg, to.id)] else sent);
      SendReaches(defs, msg, to, k, s, sent);
      assert [to] + ([msg] + s) == [to, msg] + s;
      SendEvaluates(defs0, defs, g, env, st.msg, st.to, c, c1, SendOrDrop(k), s, sent, goal);
      assert s[d - 1 := s[d - 1]] == s;
    }
  }

  /** The code that puts an extended environment value in the place of the old one. */
  function Replace(d: int, k: Code): Code {
    Instr(MakePair(1), Instr(MakePair(1), Instr(Roll(d + 1), Instr(Drop(1), Instr(Roll(-d), k)))))
  }

  /** Moving the new environment value into the place of the old one. */
  lemma SettleReaches(defs: Definitions, d: int, k: Code, env': Value, s: Stack, sent: Messages)
    requires 1 <= d <= |s|
    ensures Reaches(defs, Running(Instr(Roll(d + 1), Instr(Drop(1), Instr(Roll(-d), k))), [env'] + s, sent),
                    Running(k, s[d - 1 := env'], sent))
  {
    var goal := Running(k, s[d - 1 := env'], sent);
    var s2 := [env'] + s;
    var s4 := [env'] + s[..d - 1] + s[d..];
    var s3 := [s[d - 1]] + s4;
    Here(defs, goal);
    assert s4[1..d] == s[..d - 1] && s4[d..] == s[d..];
    assert s4[1..d] + [s4[0]] + s4[d..] == s[d - 1 := env'];
    OpThen(defs, Roll(-d), k, s4, s[d - 1 := env'], sent, goal);
    assert s3[1..] == s4;
    OpThen(defs, Drop(1), Instr(Roll(-d), k), s3, s4, sent, goal);
    assert s2[..d] == [env'] + s[..d - 1] && s2[d + 1..] == s[d..];
    assert [s2[d]] + s2[..d] + s2[d + 1..] == s3;
    OpThen(defs, Roll(d + 1), Instr(Drop(1), Instr(Roll(-d), k)), s2, s3, sent, goal);
  }

  lemma ReplaceReaches(defs: Definitions, d: int, k: Code, v: Value, scope: Value, rest: Value, s: Stack,
                       sent: Messages)
    requires 1 <= d <= |s|
    ensures Reaches(defs, Running(Replace(d, k), [v, scope, rest] + s, sent),
                    Running(k, s[d - 1 := PairV(PairV(v, scope), rest)], sent))
  {
    var head := PairV(v, scope);
    var env' := PairV(head, rest);
    var goal := Running(k, s[d - 1 := env'], sent);
    var settle := Instr(Roll(d + 1), Instr(Drop(1), Instr(Roll(-d), k)));
    SettleReaches(defs, d, k, env', s, sent);
    PairOfTwo(head, rest, s);
    OpThen(defs, MakePair(1), settle, [head, rest] + s, [env'] + s, sent, goal);
    PairOfTwo(v, scope, [rest] + s);
    assert [v, scope, rest] + s == [v, scope] + ([rest] + s) && [head, rest] + s == [head] + ([rest] + s);
    OpThen(defs, MakePair(1), Instr(MakePair(1), settle), [v, scope, rest] + s, [head, rest] + s, sent, goal);
  }

  lemma PairOfTwo(a: Value, b: Value, s: Stack)
    ensures Apply(MakePair(1), [a, b] + s) == Some([PairV(a, b)] + s)
  {
    var all := [a, b] + s;
    assert all[..1] == [a] && all[2..] == s;
    assert ListOf([], b) == b;
    assert ListOf([a], b) == PairV(a, ListOf([a][1..], b));
  }

  lemma DefPerforms(defs0: Definitions, g: Bindings, env: Env, after: Env, st: Stmt, p: Ptrn, e: Expr,
                    c1: Code, c2: Code, c: Code, k: Code)
    requires env.Scope? && after == env.(head := Node(ShapeOf(p), env.head, {}))
    requires st == DefStmt(p, e) || (st.LetStmt? && Solve(st.left, st.right) == Some((p, e)))
    requires Yields(defs0, g, At(env, env.depth + 2), e, c1, Instr(Dup(1), c2))
    requires Decides(defs0, g, At(env, env.depth + 4), p, c2,
                     If(Replace(env.depth, k), Instr(Drop(3), Instr(Push(UndefV), Abort))))
    requires c == Instr(Pick(env.depth), Instr(Part(1), c1))
    ensures Performs(defs0, g, env, TreeOf(after), st, c, k)
  {
    var d := env.depth;
    forall defs, s: Stack, sent | Extends(defs0, defs) && 1 <= d <= |s|
      ensures PerformsOn(defs, g, env, TreeOf(after), st, c, k, s, sent)
    {
      var rho, envv := Locals(env, s), s[d - 1];
      var v := Eval(g, rho, e);
      var env' := PairV(PairV(v, HeadOf(envv)), TailOf(envv));
      var goal := if Matches(g, rho, p, v) then Running(k, s[d - 1 := env'], sent) else Aborted(UndefV);
      DefBranches(defs, g, rho, p, v, HeadOf(envv), TailOf(envv), d, k, s, sent);
      DefReaches(defs0, defs, g, env, p, e, c1, c2, k, s, sent, goal);
      ExtendedScope(env, after, p, v, envv);
      DefExecutes(g, rho, sent, st, p, e);
    }
  }

  lemma DefExecutes(g: Bindings, rho: Bindings, sent: Messages, st: Stmt, p: Ptrn, e: Expr)
    requires st == DefStmt(p, e) || (st.LetStmt? && Solve(st.left, st.right) == Some((p, e)))
    ensures Execute(g, rho, sent, st) == Define(g, rho, sent, p, e)
  {
  }

  lemma ExtendedScope(env: Env, after: Env, p: Ptrn, v: Value, envv: Value)
    requires env.Scope? && after == env.(head := Node(ShapeOf(p), env.head, {}))
    ensures Bound(TreeOf(after), PairV(PairV(v, HeadOf(envv)), TailOf(envv))) == Bound(TreeOf(env), envv) + Bind(p, v)
  {
    ShapeBinds(p, v);
  }

  lemma DefBranches(defs: Definitions, g: Bindings, rho: Bindings, p: Ptrn, v: Value, scope: Value, rest: Value,
                    d: int, k: Code, s: Stack, sent: Messages)
    requires 1 <= d <= |s|
    ensures var env' := PairV(PairV(v, scope), rest);
            if Matches(g, rho, p, v)
            then Reaches(defs, Running(Replace(d, k), [v, scope, rest] + s, sent), Running(k, s[d - 1 := env'], sent))
            else Reaches(defs, Running(Instr(Drop(3), Instr(Push(UndefV), Abort)), [v, scope, rest] + s, sent),
                         Aborted(UndefV))
  {
    if Matches(g, rho, p, v) {
      ReplaceReaches(defs, d, k, v, scope, rest, s, sent);
    } else {
      var goal := Aborted(UndefV);
      var s0 := [v, scope, rest] + s;
      Here(defs, goal);
      First(defs, Running(Abort, [UndefV] + s, sent), goal);
      OpThen(defs, Push(UndefV), Abort, s, [UndefV] + s, sent, goal);
      assert s0[3..] == s;
      OpThen(defs, Drop(3), Instr(Push(UndefV), Abort), s0, s, sent, goal);
    }
  }

  lemma DefReaches(defs0: Definitions, defs: Definitions, g: Bindings, env: Env, p: Ptrn, e: Expr,
                   c1: Code, c2: Code, k: Code, s: Stack, sent: Messages, goal: State)
    requires Extends(defs0, defs) && 1 <= env.depth <= |s|
    requires Yields(defs0, g, At(env, env.depth + 2), e, c1, Instr(Dup(1), c2))
    requires Decides(defs0, g, At(env, env.depth + 4), p, c2,
                     If(Replace(env.depth, k), Instr(Drop(3), Instr(Push(UndefV), Abort))))
    requires var envv := s[env.depth - 1];
             var v := Eval(g, Locals(env, s), e);
             Reaches(defs, Running(if Matches(g, Locals(env, s), p, v) then Replace(env.depth, k)
                                   else Instr(Drop(3), Instr(Push(UndefV), Abort)),
                                   [v, HeadOf(envv), TailOf(envv)] + s, sent), goal)
    ensures Reaches(defs, Running(Instr(Pick(env.depth), Instr(Part(1), c1)), s, sent), goal)
  {
    var d, rho := env.depth, Locals(env, s);
    var envv := s[d - 1];
    var v := Eval(g, rho, e);
    var s2 := [HeadOf(envv), TailOf(envv)] + s;
    var s3 := [v] + s2;
    assert s3 == [v, HeadOf(envv), TailOf(envv)] + s;
    MatchOfTop(defs0, defs, g, At(env, d + 3), rho, p, c2, Replace(d, k),
               Instr(Drop(3), Instr(Push(UndefV), Abort)), s3, sent, goal);
    ExprThen(defs0, defs, g, At(env, d + 2), e, c1, Instr(Dup(1), c2), s2, sent, goal);
    PartOfItem(defs, d, c1, s, sent, goal);
  }

  /** Copying an item of the stack to the top and parting it. */
  lemma PartOfItem(defs: Definitions, n: int, k: Code, s: Stack, sent: Messages, goal: State)
    requires 1 <= n <= |s|
    requires Reaches(defs, Running(k, [HeadOf(s[n - 1]), TailOf(s[n - 1])] + s, sent), goal)
    ensures Reaches(defs, Running(Instr(Pick(n), Instr(Part(1), k)), s, sent), goal)
  {
    PartOfTop(s[n - 1], s);
    OpThen(defs, Part(1), k, [s[n - 1]] + s, [HeadOf(s[n - 1]), TailOf(s[n - 1])] + s, sent, goal);
    OpThen(defs, Pick(n), Instr(Part(1), k), s, [s[n - 1]] + s, sent, goal);
  }

  lemma PartOfTop(v: Value, s: Stack)
    ensures Apply(Part(1), [v] + s) == Some([HeadOf(v), TailOf(v)] + s)
  {
    assert PartsOf(TailOf(v), 0) == [TailOf(v)];
    assert PartsOf(v, 1) == [HeadOf(v), TailOf(v)];
    assert ([v] + s)[1..] == s;
  }

  /** Duplicating the top of the stack and branching on whether it matches. */
  lemma MatchOfTop(defs0: Definitions, defs: Definitions, g: Bindings, env: Env, rho: Bindings, p: Ptrn, c: Code,
                   t: Code,
                   f: Code, s: Stack, sent: Messages, goal: State)
    requires Extends(defs0, defs) && 1 <= env.depth <= |s| && Locals(env, s) == rho
    requires Decides(defs0, g, At(env, env.depth + 1), p, c, If(t, f))
    requires Reaches(defs, Running(if Matches(g, rho, p, s[0]) then t else f, s, sent), goal)
    ensures Reaches(defs, Running(Instr(Dup(1), c), s, sent), goal)
  {
    var s1 := [s[0]] + s;
    assert s1[1..] == s && s[..1] + s == s1;
    MatchBranches(defs0, defs, g, At(env, env.depth + 1), p, c, t, f, s1, sent, goal);
    OpThen(defs, Dup(1), c, s, s1, sent, goal);
  }
}
