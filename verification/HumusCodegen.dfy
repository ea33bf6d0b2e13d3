/**
 The code generator of the Humus compiler.

 Instructions are generated last first. While that happens, `env.depth` holds the
 position on the run-time stack of the value that mirrors the static environment,
 as it is where the code generated so far begins. Each method states that what it
 generates computes what the direct evaluator computes.
 */
module HumusCodegen {
  import opened Prelude
  import opened HumusSyntax
  import opened HumusPaths
  import opened HumusMachine
  import opened HumusEval
  import opened HumusEnv
  import opened HumusCorrect
  import opened HumusCompact
  import HumusSort
  import opened HumusAnalysis
  import opened HumusBlock

  // ----- What one call of the generator establishes -----

  /** After generating code for an expression: depth one less, and right if no error was reported. */
  ghost predicate ExprDone(g: Bindings, env0: Env, defs0: Definitions, errors0: nat,
                           env: Env, defs: Definitions, errors: nat, e: Expr, c: Code, k: Code) {
    && env == At(env0, env.depth)
    && env.depth >= env0.depth - 1
    && Extends(defs0, defs)
    && errors >= errors0
    && (errors == errors0 <==> Scoped(g, Known(env0), e))
    && (errors == errors0 ==> env.depth == env0.depth - 1 && Yields(defs, g, env, e, c, k))
  }

  ghost predicate MatchDone(g: Bindings, env0: Env, defs0: Definitions, errors0: nat,
                            env: Env, defs: Definitions, errors: nat, p: Ptrn, c: Code, k: Code) {
    && env == At(env0, env.depth)
    && env.depth >= env0.depth
    && Extends(defs0, defs)
    && errors >= errors0
    && (errors == errors0 <==> PtrnScoped(g, Known(env0), p))
    && (errors == errors0 ==> env == env0 && Decides(defs, g, env, p, c, k))
  }

  /** After generating code for the parts of a pair: t matches the tail, c the head and then the tail. */
  ghost predicate BothDone(g: Bindings, env0: Env, defs0: Definitions, errors0: nat,
                           env: Env, defs: Definitions, errors: nat, p: Ptrn, c: Code, r: Code, t: Code,
                           defs1: Definitions)
    requires p.PairPtrn?
  {
    && env == At(env0, env.depth)
    && env.depth >= env0.depth + 1
    && Extends(defs0, defs1) && Extends(defs1, defs)
    && errors >= errors0
    && (errors == errors0 <==> PtrnScoped(g, Known(env0), p))
    && (errors == errors0 ==>
          && env == At(env0, env0.depth + 1)
          && Decides(defs1, g, env0, p.tail, t, r)
          && Decides(defs, g, env, p.head, c, If(t, ReplaceFalse(r))))
  }

  ghost predicate ChoiceDone(g: Bindings, env0: Env, defs0: Definitions, errors0: nat,
                             env: Env, defs: Definitions, errors: nat, ch: Choice, c: Code, k: Code) {
    && env == At(env0, env.depth)
    && env.depth >= env0.depth
    && Extends(defs0, defs)
    && errors >= errors0
    && (errors == errors0 <==> ChoiceScoped(g, Known(env0), ch))
    && (errors == errors0 ==> env == env0 && Selects(defs, g, env, ch, c, k))
  }

  /** After generating code for a statement: its definitions are out of scope again. */
  ghost predicate StmtDone(g: Bindings, env0: Env, defs0: Definitions, errors0: nat,
                           env: Env, defs: Definitions, errors: nat, scope: Tree, s: Stmt, c: Code, k: Code) {
    && env0.Scope?
    && env == Scope(scope, env0.tail, env.depth)
    && env.depth >= env0.depth
    && Extends(defs0, defs)
    && errors >= errors0
    && (errors == errors0 <==> StmtScoped(g, Known(env), s))
    && (errors == errors0 ==> env.depth == env0.depth && Performs(defs, g, env, TreeOf(env0), s, c, k))
  }

  /** Code that matches an argument, in the two parts the proofs compose. */
  ghost predicate TestsFor(defs: Definitions, g: Bindings, env: Env, p: Ptrn, arg: Expr, c: Code, branches: Code) {
    && c.Instr? && c.op == Pick(env.depth)
    && exists c2 ::
         && Yields(defs, g, At(env, env.depth + 1), arg, c.k, Instr(Dup(1), c2))
         && Decides(defs, g, At(env, env.depth + 3), p, c2, branches)
  }

  /** The two branches of an IF. */
  ghost predicate ForksFor(defs: Definitions, g: Bindings, env: Env, p: Ptrn, x: Expr, next: Expr, branches: Code,
                           k: Code) {
    && branches.If?
    && Takes(defs, g, env, p, x, branches.t, k)
    && Skips(defs, g, env, next, branches.f, k)
  }

  /** The two branches of a choice. */
  ghost predicate PicksFor(defs: Definitions, g: Bindings, env: Env, p: Ptrn, x: Expr, next: Choice, branches: Code,
                           k: Code) {
    && branches.If?
    && Chosen(defs, g, env, p, x, branches.t, k)
    && Selects(defs, g, env, next, branches.f, k)
  }

  ghost predicate LinksOn(defs: Definitions, a: Code, b: Code, s: Stack, sent: Messages) {
    Reaches(defs, Running(a, s, sent), Running(b, s, sent))
  }

  /** Going to one piece of code is going to the other. */
  ghost predicate Links(defs0: Definitions, a: Code, b: Code) {
    forall defs, s: Stack, sent | Extends(defs0, defs) :: LinksOn(defs, a, b, s, sent)
  }

  lemma DecidesVia(defs0: Definitions, defs1: Definitions, g: Bindings, env: Env, p: Ptrn, c: Code, k: Code, k': Code)
    requires Decides(defs1, g, env, p, c, k) && Links(defs0, k, k') && Extends(defs0, defs1)
    ensures Decides(defs1, g, env, p, c, k')
  {
    forall defs, s: Stack, sent | Extends(defs1, defs) && 2 <= env.depth <= |s|
      ensures DecidesOn(defs, g, env, p, c, k', s, sent)
    {
      ExtendsTransitive(defs0, defs1, defs);
      var s' := [BoolV(Matches(g, Locals(env, s), p, s[0]))] + s[1..];
      assert LinksOn(defs, k, k', s', sent);
      MatchThen(defs1, defs, g, env, p, c, k, s, sent, Running(k', s', sent));
    }
  }

  lemma SelectsVia(defs0: Definitions, defs1: Definitions, g: Bindings, env: Env, ch: Choice, c: Code, k: Code,
                   k': Code)
    requires Selects(defs1, g, env, ch, c, k) && Links(defs0, k, k') && Extends(defs0, defs1)
    ensures Selects(defs1, g, env, ch, c, k')
  {
    forall defs, s: Stack, sent | Extends(defs1, defs) && 2 <= env.depth <= |s|
      ensures SelectsOn(defs, g, env, ch, c, k', s, sent)
    {
      ExtendsTransitive(defs0, defs1, defs);
      var s' := [Choose(g, Locals(env, s), ch, s[0])] + s[1..];
      assert SelectsOn(defs, g, env, ch, c, k, s, sent);
      assert LinksOn(defs, k, k', s', sent);
      Then(defs, Running(c, s, sent), Running(k, s', sent), Running(k', s', sent));
    }
  }

  lemma {:induction false} FlattenSizes(e: Expr, i: nat)
    requires i < |Flatten(e)|
    ensures ExprSize(Flatten(e)[i]) <= ExprSize(e)
    ensures e.PairExpr? ==> ExprSize(Flatten(e)[i]) < ExprSize(e)
    decreases e
  {
    if e.PairExpr? && i > 0 { FlattenSizes(e.tail, i - 1); }
  }

  lemma {:induction false} FlattenScoped(g: Bindings, known: set<string>, e: Expr)
    ensures Scoped(g, known, e) <==> forall x <- Flatten(e) :: Scoped(g, known, x)
    decreases e
  {
    var es := Flatten(e);
    if e.PairExpr? {
      FlattenScoped(g, known, e.tail);
      assert es[0] == e.head && es[1..] == Flatten(e.tail);
      if forall x <- es :: Scoped(g, known, x) {
        assert e.head in es;
        assert forall x <- es[1..] :: x in es;
      } else {
        var x :| x in es && !Scoped(g, known, x);
        assert x == es[0] || x in es[1..];
      }
    } else {
      assert es[0] == e;
    }
  }

  class Codegen {
    var env: Env
    var definitions: Definitions
    var counter: int
    var errors: nat
    const globals: Bindings

    ghost predicate Valid()
      reads this
    {
      counter >= -1 && forall l <- definitions :: l <= counter
    }

    /** Some room below the next item, and no closures in scope. */
    ghost predicate Ready(depth: int)
      reads this
    {
      Valid() && env.depth >= depth && Unmarked(TreeOf(env))
    }

    constructor (globals: Bindings, env: Env)
      ensures Valid() && this.env == env && this.globals == globals && errors == 0 && definitions == map[]
    {
      this.env, this.globals := env, globals;
      definitions, counter, errors := map[], -1, 0;
    }

    method UniqueLabel() returns (l: nat)
      requires Valid()
      modifies this`counter
      ensures Valid() && l == counter == old(counter) + 1
    {
      counter := counter + 1;
      l := counter;
    }

    /** Registers code under a fresh label, unless it is a label already. */
    method Intern(k: Code) returns (r: Code)
      requires Valid()
      modifies this`counter, this`definitions
      ensures Valid() && Extends(old(definitions), definitions)
      ensures r.Label? && Links(definitions, r, k)
    {
      if k.Label? {
        r := k;
        forall defs, s: Stack, sent | Extends(definitions, defs) ensures LinksOn(defs, r, k, s, sent) {
          Here(defs, Running(k, s, sent));
        }
      } else {
        var l := UniqueLabel();
        definitions := definitions[l := k];
        r := Label(l);
        forall defs, s: Stack, sent | Extends(definitions, defs) ensures LinksOn(defs, r, k, s, sent) {
          Here(defs, Running(k, s, sent));
          assert l in definitions && defs[l] == k;
          First(defs, Running(r, s, sent), Running(k, s, sent));
        }
      }
    }

    /** The throw of "Bad depth" is never reached. */
    method EnvAt() returns (n: int)
      requires env.depth >= 1
      ensures n == env.depth
    {
      n := env.depth;
      if n <= 0 { assert false; }
    }

    method Emit(op: Op, k: Code) returns (c: Code)
      modifies this`env
      ensures env == At(old(env), old(env).depth - StackDelta(op))
      ensures c == Instr(op, k)
    {
      env := At(env, env.depth - StackDelta(op));
      c := Instr(op, k);
    }

    method EmitPickEnv(k: Code) returns (c: Code)
      requires env.depth >= 2
      modifies this`env
      ensures env == At(old(env), old(env).depth - 1)
      ensures c == Instr(Pick(env.depth), k)
    {
      env := At(env, env.depth - 1);
      var n := EnvAt();
      c := Instr(Pick(n), k);
    }

    /** `roll env_at` (positive) or `roll env_to` (negative). */
    method EmitRollEnv(up: bool, k: Code) returns (c: Code)
      requires env.depth >= 1
      modifies this`env
      ensures env == old(env)
      ensures c == Instr(Roll(if up then env.depth else -env.depth), k)
    {
      var n := EnvAt();
      c := Instr(Roll(if up then n else -n), k);
    }

    /** A jump that consumes some arguments and a continuation and leaves some results. */
    method EmitCall(args: nat, results: nat) returns (c: Code)
      modifies this`env
      ensures env == At(old(env), old(env).depth + 1 - (results - (args + 1)))
      ensures c == Jump
    {
      env := At(env, env.depth + 1);
      env := At(env, env.depth - (results - (args + 1)));
      c := Jump;
    }

    /** Joins two branches; the throw of "Stack depth mismatch in branches" is never reached. */
    method EmitIf(t: Code, f: Code, tDepth: int) returns (c: Code)
      requires errors == 0 ==> tDepth == env.depth
      modifies this`env
      ensures env == At(old(env), old(env).depth + 1)
      ensures c == If(t, f)
    {
      if tDepth != env.depth && errors == 0 { assert false; }
      env := At(env, env.depth + 1);
      c := If(t, f);
    }

    method EmitReplaceFalse(k: Code) returns (c: Code)
      modifies this`env
      ensures env == old(env)
      ensures c == ReplaceFalse(k)
    {
      c := Emit(Push(BoolV(false)), k);
      c := Emit(Drop(1), c);
    }

    method EmitNths(path: Path, k: Code) returns (c: Code)
      modifies this`env
      ensures env == old(env)
      ensures Walks(path, c, k)
    {
      c := k;
      var i := |path|;
      assert path[i..] == [];
      forall defs, s: Stack, sent | |s| >= 1 ensures WalksOn(defs, path[i..], c, k, s, sent) {
        Here(defs, Running(k, s, sent));
        assert [s[0]] + s[1..] == s;
      }
      while i > 0
        invariant 0 <= i <= |path|
        invariant env == old(env)
        invariant Walks(path[i..], c, k)
      {
        i := i - 1;
        WalkOn(path[i + 1..], path[i], c, k);
        assert [path[i]] + path[i + 1..] == path[i..];
        c := Emit(TakeNth(path[i]), c);
      }
      assert path[0..] == path;
    }

    /** Reports every identifier that a visit of the pattern meets again. */
    method RedefinitionCheck(p: Ptrn)
      modifies this`errors
      ensures errors >= old(errors)
      ensures errors == old(errors) <==> NoRepeats(PtrnIdents(p))
    {
      var idents := PtrnIdents(p);
      var seen: seq<string> := [];
      for i := 0 to |idents|
        invariant seen == idents[..i]
        invariant errors >= old(errors)
        invariant errors == old(errors) <==> NoRepeats(idents[..i])
      {
        assert idents[..i + 1] == idents[..i] + [idents[i]];
        if idents[i] in seen {
          errors := errors + 1;
          var j :| 0 <= j < i && idents[j] == idents[i];
          assert idents[..i + 1][j] == idents[..i + 1][i];
        } else {
        }
        seen := seen + [idents[i]];
      }
      assert idents[..|idents|] == idents;
    }

    // ----- Expressions -----

    method Generate(e: Expr, k: Code) returns (c: Code)
      requires Ready(2)
      modifies this
      ensures Valid()
      ensures ExprDone(globals, old(env), old(definitions), old(errors), env, definitions, errors, e, c, k)
      decreases ExprSize(e), 1
    {
      match e
      case ConstExpr(value) =>
        PushYields(definitions, globals, At(env, env.depth - 1), e, Atom(value), k);
        c := Emit(Push(Atom(value)), k);
      case IdentExpr(x) => c := GenIdent(e, k);
      case PairExpr(_, _) => c := GenPair(e, k);
      case IfExpr(_, _, _, _) => c := GenIf(e, k);
      case CaseExpr(subject, choice) =>
        var c1 := GenCaseChoice(choice, k);
        ghost var env1, defs1, errors1 := env, definitions, errors;
        c := Generate(subject, c1);
        ExtendsTransitive(old(definitions), defs1, definitions);
        if errors == old(errors) {
          SelectsLater(defs1, definitions, globals, env1, choice, c1, k);
          assert env1 == At(env, env.depth + 1);
          CaseYields(definitions, globals, env, e, c1, c, k);
        }
    }

    method GenIdent(e: Expr, k: Code) returns (c: Code)
      requires e.IdentExpr? && Ready(2)
      modifies this`env, this`errors
      ensures ExprDone(globals, old(env), old(definitions), old(errors), env, definitions, errors, e, c, k)
    {
      ghost var v := UndefV;
      BoundNames(TreeOf(env), v);
      SearchBinds(TreeOf(env), v, e.ident);
      if e.ident == "_" {
        errors := errors + 1;
        c := k;
      } else {
        var path := Search(TreeOf(env), e.ident);
        if path.None? {
          if e.ident in globals {
            PushYields(definitions, globals, At(env, env.depth - 1), e, globals[e.ident], k);
            c := Emit(Push(globals[e.ident]), k);
          } else {
            errors := errors + 1;
            c := k;
          }
        } else {
          var c1 := EmitNths(path.value, k);
          c := EmitPickEnv(c1);
          IdentYields(definitions, globals, env, e.ident, path.value, c1, k);
        }
      }
    }

    method GenPair(e: Expr, k: Code) returns (c: Code)
      requires e.PairExpr? && Ready(2)
      modifies this
      ensures Valid()
      ensures ExprDone(globals, old(env), old(definitions), old(errors), env, definitions, errors, e, c, k)
      decreases ExprSize(e), 0
    {
      var es := Flatten(e);
      var n := |es|;
      ghost var final := At(env, env.depth - 1);
      c := Emit(MakePair(n - 1), k);
      MakePairPairsUp(definitions, globals, final, es, k);
      for i := 0 to n
        invariant Valid() && Extends(old(definitions), definitions) && errors >= old(errors)
        invariant env == At(old(env), env.depth) && env.depth >= old(env).depth + (n - 1) - i
        invariant errors == old(errors) <==> forall j :: 0 <= j < i ==> Scoped(globals, Known(old(env)), es[j])
        invariant errors == old(errors) ==>
                    env.depth == old(env).depth + (n - 1) - i && PairsUp(definitions, globals, final, es, i, c, k)
      {
        ghost var c0, defs0, errors0 := c, definitions, errors;
        FlattenSizes(e, i);
        c := Generate(es[i], c);
        ExtendsTransitive(old(definitions), defs0, definitions);
        if errors == old(errors) {
          PairsUpLater(defs0, definitions, globals, final, es, i, c0, k);
          assert env == At(final, final.depth + (n - i - 1));
          ElementPairsUp(definitions, globals, final, es, i, c0, c, k);
        }
      }
      FlattenScoped(globals, Known(old(env)), e);
      if errors == old(errors) {
        PairYields(definitions, globals, final, e, c, k);
      }
    }

    method GenIf(e: Expr, k: Code) returns (c: Code)
      requires e.IfExpr? && Ready(2)
      modifies this
      ensures Valid()
      ensures ExprDone(globals, old(env), old(definitions), old(errors), env, definitions, errors, e, c, k)
      decreases ExprSize(e), 0
    {
      var solved := Solve(e.left, e.right);
      if solved.None? {
        errors := errors + 1;
        return k;
      }
      var (p, arg) := solved.value;
      ShapeBinds(p, UndefV);
      RedefinitionCheck(p);
      var branches := GenIfBranches(p, e.expr, e.next, k);
      ghost var defs1 := definitions;
      c := GenIfTest(p, arg, branches);
      ExtendsTransitive(old(definitions), defs1, definitions);
      if errors == old(errors) {
        IfAssembled(defs1, definitions, globals, env, e, p, arg, branches, c, k);
      }
    }

    method GenIfBranches(p: Ptrn, x: Expr, next: Expr, k: Code) returns (branches: Code)
      requires Ready(2)
      modifies this
      ensures Valid()
      ensures env == At(old(env), env.depth) && env.depth >= old(env).depth + 2
      ensures Extends(old(definitions), definitions) && errors >= old(errors)
      ensures errors == old(errors) <==>
              Scoped(globals, Names(p) + Known(old(env)), x) && Scoped(globals, Known(old(env)), next)
      ensures errors == old(errors) ==>
                && env.depth == old(env).depth + 2
                && ForksFor(definitions, globals, At(env, env.depth - 3), p, x, next, branches, k)
      decreases PtrnSize(p) + ExprSize(x) + ExprSize(next), 3
    {
      var checkpoint := env.depth;
      var t := GenIfTrue(p, x, k);
      ghost var defs1 := definitions;
      var tDepth := env.depth;
      env := At(env, checkpoint);
      var f := GenIfFalse(next, k);
      ExtendsTransitive(old(definitions), defs1, definitions);
      if errors == old(errors) {
        TakesLater(defs1, definitions, globals, At(env, env.depth - 2), p, x, t, k);
      }
      branches := EmitIf(t, f, tDepth);
    }

    /** Evaluates the argument on top of a copy of the environment and matches it. */
    method GenIfTest(p: Ptrn, arg: Expr, branches: Code) returns (c: Code)
      requires Ready(4)
      modifies this
      ensures Valid()
      ensures env == At(old(env), env.depth) && env.depth >= old(env).depth - 3
      ensures Extends(old(definitions), definitions) && errors >= old(errors)
      ensures errors == old(errors) <==>
                Scoped(globals, Known(old(env)), arg) && PtrnScoped(globals, Known(old(env)), p)
      ensures errors == old(errors) ==>
                env.depth == old(env).depth - 3 && TestsFor(definitions, globals, env, p, arg, c, branches)
      decreases PtrnSize(p) + ExprSize(arg), 2
    {
      var c2 := GenPtrnMatch(p, branches);
      ghost var defs1 := definitions;
      var c1 := Emit(Dup(1), c2);
      c1 := Generate(arg, c1);
      c := EmitPickEnv(c1);
      ExtendsTransitive(old(definitions), defs1, definitions);
      if errors == old(errors) {
        TestAssembled(defs1, definitions, globals, env, p, arg, c1, c2, c, branches);
      }
    }

    method GenIfTrue(p: Ptrn, x: Expr, k: Code) returns (t: Code)
      requires Ready(2)
      modifies this
      ensures Valid()
      ensures env == At(old(env), env.depth) && env.depth >= old(env).depth + 1
      ensures Extends(old(definitions), definitions) && errors >= old(errors)
      ensures errors == old(errors) <==> Scoped(globals, Names(p) + Known(old(env)), x)
      ensures errors == old(errors) ==>
                env.depth == old(env).depth + 1 && Takes(definitions, globals, At(env, env.depth - 2), p, x, t, k)
      decreases PtrnSize(p) + ExprSize(x), 0
    {
      var outer := Emit(Drop(1), k);
      outer := Emit(Roll(-2), outer);
      ScopeKnown(p, env, 2);
      env := Scope(ShapeOf(p), env, 2);
      var c := Generate(x, outer);
      ghost var inner := env;
      t := Emit(MakePair(1), c);
      env := env.tail;
      if errors == old(errors) {
        TakesCode(definitions, globals, At(env, env.depth - 2), inner, p, x, c, k);
      }
    }

    method GenIfFalse(x: Expr, k: Code) returns (f: Code)
      requires Ready(2)
      modifies this
      ensures Valid()
      ensures env == At(old(env), env.depth) && env.depth >= old(env).depth + 1
      ensures Extends(old(definitions), definitions) && errors >= old(errors)
      ensures errors == old(errors) <==> Scoped(globals, Known(old(env)), x)
      ensures errors == old(errors) ==>
                env.depth == old(env).depth + 1 && Skips(definitions, globals, At(env, env.depth - 2), x, f, k)
      decreases ExprSize(x), 2
    {
      var c := Generate(x, k);
      f := Emit(Drop(2), c);
      if errors == old(errors) {
        SkipsCode(definitions, globals, At(env, env.depth - 2), x, c, k);
      }
    }

    // ----- Choices -----

    method GenCaseChoice(ch: Choice, k: Code) returns (c: Code)
      requires Ready(2)
      modifies this
      ensures Valid()
      ensures ChoiceDone(globals, old(env), old(definitions), old(errors), env, definitions, errors, ch, c, k)
      decreases ChoiceSize(ch), 0
    {
      match ch
      case CaseEnd =>
        EndSelects(definitions, globals, env, k);
        c := Emit(Push(UndefV), k);
        c := Emit(Drop(1), c);
      case CaseChoice(p, x, next) =>
        ShapeBinds(p, UndefV);
        RedefinitionCheck(p);
        var r := Intern(k);
        ghost var defs0 := definitions;
        var branches := GenCaseBranches(p, x, next, r);
        ghost var defs1 := definitions;
        var c1 := GenPtrnMatch(p, branches);
        c := Emit(Dup(1), c1);
        ExtendsTransitive(old(definitions), defs0, defs1);
        ExtendsTransitive(old(definitions), defs1, definitions);
        if errors == old(errors) {
          ChoiceAssembled(defs0, defs1, definitions, globals, env, ch, c1, branches, c, r, k);
        }
    }

    method GenCaseBranches(p: Ptrn, x: Expr, next: Choice, k: Code) returns (branches: Code)
      requires Ready(2)
      modifies this
      ensures Valid()
      ensures env == At(old(env), env.depth) && env.depth >= old(env).depth + 1
      ensures Extends(old(definitions), definitions) && errors >= old(errors)
      ensures errors == old(errors) <==>
              Scoped(globals, Names(p) + Known(old(env)), x) && ChoiceScoped(globals, Known(old(env)), next)
      ensures errors == old(errors) ==>
                env.depth == old(env).depth + 1 && PicksFor(definitions, globals, old(env), p, x, next, branches, k)
      decreases PtrnSize(p) + ExprSize(x) + ChoiceSize(next), 1
    {
      var checkpoint := env.depth;
      var t := GenCaseChoiceExpr(p, x, k);
      ghost var defs1 := definitions;
      var tDepth := env.depth;
      env := At(env, checkpoint);
      var f := GenCaseChoice(next, k);
      ExtendsTransitive(old(definitions), defs1, definitions);
      if errors == old(errors) {
        ChosenLater(defs1, definitions, globals, env, p, x, t, k);
      }
      branches := EmitIf(t, f, tDepth);
    }

    method GenCaseChoiceExpr(p: Ptrn, x: Expr, k: Code) returns (c: Code)
      requires Ready(2)
      modifies this
      ensures Valid()
      ensures env == old(env) && Extends(old(definitions), definitions) && errors >= old(errors)
      ensures errors == old(errors) <==> Scoped(globals, Names(p) + Known(old(env)), x)
      ensures errors == old(errors) ==> Chosen(definitions, globals, env, p, x, c, k)
      decreases PtrnSize(p) + ExprSize(x), 0
    {
      ShapeBinds(p, UndefV);
      env := Scope(ShapeOf(p), env, 1);
      c := Emit(Drop(1), k);
      c := Emit(Roll(2), c);
      var c1 := Generate(x, c);
      ghost var inner := env;
      c := Emit(MakePair(1), c1);
      c := Emit(Roll(2), c);
      env := At(env, env.depth - 1);
      c := Instr(Pick(env.tail.depth), c);
      env := env.tail;
      if errors == old(errors) {
        ChosenCode(definitions, globals, env, inner, p, x, c1, c, k);
      }
    }

    // ----- Pattern matching -----

    method GenPtrnMatch(p: Ptrn, k: Code) returns (c: Code)
      requires Ready(2)
      modifies this
      ensures Valid()
      ensures MatchDone(globals, old(env), old(definitions), old(errors), env, definitions, errors, p, c, k)
      decreases PtrnSize(p), 2
    {
      match p
      case ConstPtrn(value) =>
        ConstDecides(definitions, globals, env, p, k);
        c := Emit(EqTo(Atom(value)), k);
      case PairPtrn(head, tail) => c := GenPairMatch(p, k);
      case ValuePtrn(e) =>
        c := EmitCall(2, 1);
        c := Emit(Push(EqProc), c);
        c := Emit(Push(CodeV(k)), c);
        c := Generate(e, c);
        if errors == old(errors) {
          ValueDecides(definitions, globals, env, p, c, k);
        }
      case _ =>
        AlwaysDecides(definitions, globals, env, p, k);
        c := Emit(Push(BoolV(true)), k);
        c := Emit(Drop(1), c);
    }

    method GenPairMatch(p: Ptrn, k: Code) returns (c: Code)
      requires p.PairPtrn? && Ready(2)
      modifies this
      ensures Valid()
      ensures MatchDone(globals, old(env), old(definitions), old(errors), env, definitions, errors, p, c, k)
      decreases PtrnSize(p), 1
    {
      var r := Intern(k);
      ghost var defs0 := definitions;
      var checkpoint := env.depth;
      // Both parts must match.
      var c1, t2, defs1 := GenBothMatch(p, r);
      c := EmitPairBranches(checkpoint, c1, r);
      ExtendsTransitive(old(definitions), defs0, defs1);
      ExtendsTransitive(old(definitions), defs1, definitions);
      if errors == old(errors) {
        PairAssembled(defs0, defs1, definitions, globals, env, p, c1, t2, c, r, k);
      }
    }

    /** Takes a pair apart and goes on; anything else does not match. */
    method EmitPairBranches(checkpoint: int, k: Code, r: Code) returns (c: Code)
      requires errors == 0 ==> env.depth == checkpoint + 1
      modifies this`env
      ensures env == At(old(env), checkpoint)
      ensures c == Instr(Dup(1), Instr(IsPair, If(Instr(Part(1), k), ReplaceFalse(r))))
    {
      var t := Emit(Part(1), k);
      var tDepth := env.depth;
      env := At(env, checkpoint);
      var f := EmitReplaceFalse(r);
      c := EmitIf(t, f, tDepth);
      c := Emit(IsPair, c);
      c := Emit(Dup(1), c);
    }

    /** Matches the head of a pair and then, under it, the tail. */
    method GenBothMatch(p: Ptrn, r: Code) returns (c: Code, ghost t: Code, ghost defs: Definitions)
      requires p.PairPtrn? && Ready(2)
      modifies this
      ensures Valid()
      ensures BothDone(globals, old(env), old(definitions), old(errors), env, definitions, errors, p, c, r, t, defs)
      decreases PtrnSize(p), 0
    {
      var checkpoint := env.depth;
      var t2 := GenPtrnMatch(p.tail, r);
      defs, t := definitions, t2;
      var t2Depth := env.depth;
      env := At(env, checkpoint);
      var f2 := EmitReplaceFalse(r);
      var branches := EmitIf(t2, f2, t2Depth);
      c := GenPtrnMatch(p.head, branches);
    }

    // ----- Closure environments -----

    /**
     Replaces a copy of the environment value on top of the stack by the compacted one,
     which the lookup lemma of the closure conversion speaks about.
     */
    method EmitCompact(paths: seq<Option<Path>>, k: Code) returns (c: Code)
      requires paths != [] && env.depth >= 2
      modifies this`env
      ensures env == old(env)
      ensures Compacts(definitions, env, paths, c, k)
    {
      var n := |paths|;
      ghost var final := env;
      c := Emit(Drop(1), k);
      c := Emit(Roll(-2), c);
      c := Emit(MakePair(n - 1), c);
      PairCompacts(definitions, final, paths, k);
      for i := 0 to n
        invariant env == At(final, final.depth + n - i)
        invariant CompactsFrom(definitions, final, paths, i, c, k)
      {
        ghost var c0 := c;
        if paths[i].None? {
          c := Emit(Push(UndefV), c);
          UndefCompacts(definitions, final, paths, i, c0, c, k);
        } else {
          var c1 := EmitNths(paths[i].value, c);
          c := EmitPickEnv(c1);
          PathCompacts(definitions, final, paths, i, c0, c1, c, k);
        }
      }
      AllCompact(definitions, env, paths, c, k);
    }

    // ----- Statements -----

    method EmitAbort() returns (c: Code)
      modifies this`env
      ensures env == At(old(env), old(env).depth + 1)
      ensures c == Abort
    {
      env := At(env, env.depth + 1);
      c := Abort;
    }

    /** Joins two branches of which the false one aborts, so that its depth does not matter. */
    method EmitIfElseAbort(t: Code, f: Code, tDepth: int) returns (c: Code)
      modifies this`env
      ensures env == At(old(env), tDepth + 1)
      ensures c == If(t, f)
    {
      env := At(env, tDepth);
      env := At(env, env.depth + 1);
      c := If(t, f);
    }

    method GenStmt(s: Stmt, k: Code, ghost scope: Tree) returns (c: Code)
      requires Ready(1) && Unmarked(scope)
      requires env.Scope? && env.head == Declare(scope, s)
      modifies this
      ensures Valid()
      ensures StmtDone(globals, old(env), old(definitions), old(errors), env, definitions, errors, scope, s, c, k)
      decreases StmtSize(s), 1
    {
      match s
      case DefStmt(p, e) => c := GenDef(s, p, e, k, scope);
      case LetStmt(left, right) =>
        var solved := Solve(left, right);
        if solved.None? {
          errors := errors + 1;
          c := k;
        } else {
          c := GenDef(s, solved.value.0, solved.value.1, k, scope);
        }
      case SendStmt(msg, to) => c := GenSend(s, k);
      case ThrowStmt(e) =>
        c := EmitAbort();
        c := Generate(e, c);
        if errors == old(errors) {
          ThrowPerforms(definitions, globals, env, TreeOf(env), s, c, k);
        }
      case StmtPair(h, t) => c := GenStmtPair(s, k, scope);
      case EmptyStmt =>
        EmptyPerforms(definitions, globals, env, k);
        c := k;
    }

    method GenStmtPair(s: Stmt, k: Code, ghost scope: Tree) returns (c: Code)
      requires s.StmtPair? && Ready(1) && Unmarked(scope)
      requires env.Scope? && env.head == Declare(scope, s)
      modifies this
      ensures Valid()
      ensures StmtDone(globals, old(env), old(definitions), old(errors), env, definitions, errors, scope, s, c, k)
      decreases StmtSize(s), 0
    {
      DeclareNames(scope, s.head);
      var c1 := GenStmt(s.tail, k, Declare(scope, s.head));
      ghost var mid, defs1 := env, definitions;
      assert Known(mid) == DefinedBy(s.head) + Known(Scope(scope, mid.tail, 0));
      c := GenStmt(s.head, c1, scope);
      ExtendsTransitive(old(definitions), defs1, definitions);
      if errors == old(errors) {
        PerformsLater(defs1, definitions, globals, mid, TreeOf(old(env)), s.tail, c1, k);
        PairPerforms(definitions, globals, env, mid, TreeOf(old(env)), s, c, c1, k);
      }
    }

    method GenSend(s: Stmt, k: Code) returns (c: Code)
      requires s.SendStmt? && Ready(1)
      requires env.Scope?
      modifies this
      ensures Valid()
      ensures StmtDone(globals, old(env), old(definitions), old(errors), env, definitions, errors,
                       old(env).head, s, c, k)
      decreases StmtSize(s), 0
    {
      var c1 := EmitSendOrDrop(k);
      c1 := Generate(s.to, c1);
      ghost var env1, defs1 := env, definitions;
      c := Generate(s.msg, c1);
      ExtendsTransitive(old(definitions), defs1, definitions);
      if errors == old(errors) {
        YieldsLater(defs1, definitions, globals, env1, s.to, c1, SendOrDrop(k));
        SendPerforms(definitions, globals, env, s, c, c1, k);
      }
    }

    /** Sends the message to what is on top of the stack if that is an actor; otherwise both are dropped. */
    method EmitSendOrDrop(k: Code) returns (c: Code)
      modifies this`env
      ensures env == At(old(env), old(env).depth + 2)
      ensures c == SendOrDrop(k)
    {
      var checkpoint := env.depth;
      var t := Emit(Send, k);
      var tDepth := env.depth;
      env := At(env, checkpoint);
      var f := Emit(Drop(2), k);
      var branches := EmitIf(t, f, tDepth);
      c := Emit(IsActor, branches);
      c := Emit(Dup(1), c);
    }

    method GenDef(s: Stmt, p: Ptrn, e: Expr, k: Code, ghost scope: Tree) returns (c: Code)
      requires Ready(1) && Unmarked(scope)
      requires s == DefStmt(p, e) || (s.LetStmt? && Solve(s.left, s.right) == Some((p, e)))
      requires env.Scope? && env.head == Node(ShapeOf(p), scope, {})
      modifies this
      ensures Valid()
      ensures StmtDone(globals, old(env), old(definitions), old(errors), env, definitions, errors, scope, s, c, k)
      decreases PtrnSize(p) + ExprSize(e), 3
    {
      RedefinitionCheck(p);
      // The definition falls out of scope: earlier statements do not see it.
      env := Scope(env.head.tail, env.tail, env.depth);
      ghost var before := env;
      var branches := GenDefBranches(k);
      c := GenDefTest(p, e, branches);
      if errors == old(errors) {
        assert env == before;
        DefAssembled(definitions, globals, env, old(env), s, p, e, c, k);
      }
    }

    /** Evaluates the value on top of the two parts of the environment and matches it. */
    method GenDefTest(p: Ptrn, e: Expr, branches: Code) returns (c: Code)
      requires Ready(5)
      modifies this
      ensures Valid()
      ensures env == At(old(env), env.depth) && env.depth >= old(env).depth - 4
      ensures Extends(old(definitions), definitions) && errors >= old(errors)
      ensures errors == old(errors) <==> Scoped(globals, Known(old(env)), e) && PtrnScoped(globals, Known(old(env)), p)
      ensures errors == old(errors) ==>
                env.depth == old(env).depth - 4 && DefTestsFor(definitions, globals, env, p, e, c, branches)
      decreases PtrnSize(p) + ExprSize(e), 2
    {
      var c2 := GenPtrnMatch(p, branches);
      ghost var defs1 := definitions;
      var c1 := Emit(Dup(1), c2);
      c1 := Generate(e, c1);
      c := Emit(Part(1), c1);
      c := EmitPickEnv(c);
      ExtendsTransitive(old(definitions), defs1, definitions);
      if errors == old(errors) {
        DefTestAssembled(defs1, definitions, globals, env, p, e, c1, c2, c, branches);
      }
    }

    method GenDefBranches(k: Code) returns (branches: Code)
      requires env.depth >= 1
      modifies this`env
      ensures env == At(old(env), old(env).depth + 4)
      ensures branches == DefBranchesCode(old(env).depth, k)
    {
      var checkpoint := env.depth;
      var t := EmitRollEnv(false, k);
      t := Emit(Drop(1), t);
      t := EmitRollEnv(true, t);
      t := Emit(MakePair(1), t);
      t := Emit(MakePair(1), t);
      var tDepth := env.depth;
      env := At(env, checkpoint);
      var f := EmitAbort();
      f := Emit(Push(UndefV), f);
      f := Emit(Drop(3), f);
      branches := EmitIfElseAbort(t, f, tDepth);
    }

    // ----- Blocks -----

    /** Reports every identifier of a definition that an earlier one has defined. */
    method FreshCheck(p: Ptrn)
      requires env.Scope? && Unmarked(env.head)
      modifies this`errors
      ensures errors >= old(errors)
      ensures errors == old(errors) <==> FreshIn(env.head, p)
    {
      var idents := PtrnIdents(p);
      for i := 0 to |idents|
        invariant errors >= old(errors)
        invariant errors == old(errors) <==> forall j :: 0 <= j < i ==> idents[j] !in NamesIn(env.head)
      {
        BoundNames(env.head, UndefV);
        SearchBinds(env.head, UndefV, idents[i]);
        if Search(env.head, idents[i]).Some? {
          errors := errors + 1;
        }
      }
    }

    /** Code for a block, whose statements are sorted if they can be. */
    method GenBlockCode(stmts: seq<Stmt>) returns (c: Code)
      requires Valid() && Unmarked(TreeOf(env)) && Simple(stmts)
      modifies this
      ensures Valid() && env == old(env)
      ensures Extends(old(definitions), definitions) && errors >= old(errors)
      ensures Simple(SortedStmts(stmts))
      ensures errors == old(errors) <==>
              && FreshBlock(EmptyScope, SortedStmts(stmts))
              && StmtScoped(globals, Known(old(env)), Unflatten(SortedStmts(stmts)))
      ensures errors == old(errors) ==>
                BlockRuns(definitions, globals, TreeOf(old(env)), Unflatten(SortedStmts(stmts)), c)
    {
      var order := HumusSort.SortStmts(Analyses(stmts));
      var arranged := stmts;
      if order.Some? {
        ArrangedSimple(stmts, order.value);
        arranged := Arrange(stmts, order.value);
      }
      c := GenSortedBlock(arranged);
    }

    /**
     Code for a block of sorted statements. It takes a continuation and the
     environment value, runs the statements in the extended environment, and goes on.
     */
    method GenSortedBlock(stmts: seq<Stmt>) returns (c: Code)
      requires Valid() && Unmarked(TreeOf(env)) && Simple(stmts)
      modifies this
      ensures Valid() && env == old(env)
      ensures Extends(old(definitions), definitions) && errors >= old(errors)
      ensures errors == old(errors) <==>
              FreshBlock(EmptyScope, stmts) && StmtScoped(globals, Known(old(env)), Unflatten(stmts))
      ensures errors == old(errors) ==> BlockRuns(definitions, globals, TreeOf(old(env)), Unflatten(stmts), c)
    {
      env := Scope(EmptyScope, env, -1);
      for i := 0 to |stmts|
        invariant Valid() && definitions == old(definitions) && errors >= old(errors)
        invariant env.Scope? && env == Scope(env.head, old(env), -1) && Unmarked(env.head)
        invariant DeclareAll(EmptyScope, stmts) == DeclareAll(env.head, stmts[i..])
        invariant FreshBlock(EmptyScope, stmts) <==> errors == old(errors) && FreshBlock(env.head, stmts[i..])
      {
        assert stmts[i..][1..] == stmts[i + 1..];
        DeclareNames(env.head, stmts[i]);
        var ptrn := DefPtrn(stmts[i]);
        if ptrn.Some? {
          FreshCheck(ptrn.value);
          env := Scope(Node(ShapeOf(ptrn.value), env.head, {}), env.tail, env.depth);
        }
      }
      assert stmts[|stmts|..] == [];
      DeclareAllIsDeclare(EmptyScope, stmts);
      DeclareNames(EmptyScope, Unflatten(stmts));
      ghost var full := env;
      env := At(env, env.depth + 1);
      c := Emit(Drop(1), Jump);
      var c1 := GenStmt(Unflatten(stmts), c, EmptyScope);
      ghost var inner := env;
      assert Known(inner) == Known(old(env));
      if errors == old(errors) {
        BlockCode(definitions, globals, old(env), inner, TreeOf(full), Unflatten(stmts), c1);
      }
      c := Emit(MakePair(1), c1);
      c := Emit(Push(UndefV), c);
      env := env.tail;
    }
  }

  function DefBranchesCode(d: int, k: Code): Code {
    If(Replace(d, k), Instr(Drop(3), Instr(Push(UndefV), Abort)))
  }

  ghost predicate DefTestsFor(defs: Definitions, g: Bindings, env: Env, p: Ptrn, e: Expr, c: Code, branches: Code) {
    && c.Instr? && c.op == Pick(env.depth) && c.k.Instr? && c.k.op == Part(1)
    && exists c2 ::
         && Yields(defs, g, At(env, env.depth + 2), e, c.k.k, Instr(Dup(1), c2))
         && Decides(defs, g, At(env, env.depth + 4), p, c2, branches)
  }

  lemma DefTestAssembled(defs1: Definitions, defs: Definitions, g: Bindings, env: Env, p: Ptrn, e: Expr,
                         c1: Code, c2: Code, c: Code, branches: Code)
    requires Extends(defs1, defs) && c == Instr(Pick(env.depth), Instr(Part(1), c1))
    requires Decides(defs1, g, At(env, env.depth + 4), p, c2, branches)
    requires Yields(defs, g, At(env, env.depth + 2), e, c1, Instr(Dup(1), c2))
    ensures DefTestsFor(defs, g, env, p, e, c, branches)
  {
    DecidesLater(defs1, defs, g, At(env, env.depth + 4), p, c2, branches);
  }

  lemma DefAssembled(defs: Definitions, g: Bindings, env: Env, after: Env, s: Stmt, p: Ptrn, e: Expr, c: Code, k: Code)
    requires env.Scope? && after == env.(head := Node(ShapeOf(p), env.head, {}))
    requires s == DefStmt(p, e) || (s.LetStmt? && Solve(s.left, s.right) == Some((p, e)))
    requires DefTestsFor(defs, g, env, p, e, c, DefBranchesCode(env.depth, k))
    ensures Performs(defs, g, env, TreeOf(after), s, c, k)
  {
    var c2 :| Yields(defs, g, At(env, env.depth + 2), e, c.k.k, Instr(Dup(1), c2))
              && Decides(defs, g, At(env, env.depth + 4), p, c2, DefBranchesCode(env.depth, k));
    DefPerforms(defs, g, env, after, s, p, e, c.k.k, c2, c, k);
  }

  function ValuesAt(v: Value, paths: seq<Option<Path>>): (vs: Stack)
    ensures |vs| == |paths|
  {
    seq(|paths|, i requires 0 <= i < |paths| => ValueAt(v, paths[i]))
  }

  lemma {:induction false} ListIsRebuilt(v: Value, paths: seq<Option<Path>>)
    requires paths != []
    ensures ListOf(ValuesAt(v, paths)[..|paths| - 1], ValuesAt(v, paths)[|paths| - 1]) == RebuildValue(v, paths)
  {
    var vs := ValuesAt(v, paths);
    if |paths| > 1 {
      ListIsRebuilt(v, paths[1..]);
      assert vs[1..] == ValuesAt(v, paths[1..]);
      assert vs[..|vs| - 1][1..] == vs[1..][..|vs| - 2];
    }
  }

  ghost predicate CompactsOn(defs: Definitions, env: Env, paths: seq<Option<Path>>, c: Code, k: Code, s: Stack,
                             sent: Messages)
    requires paths != [] && 2 <= env.depth <= |s|
  {
    Reaches(defs, Running(c, s, sent), Running(k, [RebuildValue(s[env.depth - 1], paths)] + s[1..], sent))
  }

  /** The code replaces the top of the stack by the environment value rebuilt from the paths. */
  ghost predicate Compacts(defs0: Definitions, env: Env, paths: seq<Option<Path>>, c: Code, k: Code)
    requires paths != []
  {
    forall defs, s: Stack, sent | Extends(defs0, defs) && 2 <= env.depth <= |s| ::
        CompactsOn(defs, env, paths, c, k, s, sent)
  }

  ghost predicate CompactsFromOn(defs: Definitions, env: Env, paths: seq<Option<Path>>, i: nat, c: Code, k: Code,
                                 s: Stack,
                                 sent: Messages)
    requires paths != [] && i <= |paths| && 2 <= env.depth <= |s|
  {
    var v := s[env.depth - 1];
    Reaches(defs, Running(c, ValuesAt(v, paths)[i..] + s, sent), Running(k, [RebuildValue(v, paths)] + s[1..], sent))
  }

  ghost predicate CompactsFrom(defs0: Definitions, env: Env, paths: seq<Option<Path>>, i: nat, c: Code, k: Code)
    requires paths != [] && i <= |paths|
  {
    forall defs, s: Stack, sent | Extends(defs0, defs) && 2 <= env.depth <= |s| ::
      CompactsFromOn(defs, env, paths, i, c, k, s, sent)
  }

  lemma PairCompacts(defs0: Definitions, env: Env, paths: seq<Option<Path>>, k: Code)
    requires paths != []
    ensures CompactsFrom(defs0, env, paths, 0, Instr(MakePair(|paths| - 1), Instr(Roll(-2), Instr(Drop(1), k))), k)
  {
    var n := |paths|;
    var c := Instr(MakePair(n - 1), Instr(Roll(-2), Instr(Drop(1), k)));
    forall defs, s: Stack, sent | Extends(defs0, defs) && 2 <= env.depth <= |s|
      ensures CompactsFromOn(defs, env, paths, 0, c, k, s, sent)
    {
      var v := s[env.depth - 1];
      var list := RebuildValue(v, paths);
      var goal, s1 := Running(k, [list] + s[1..], sent), [list] + s;
      ListReplaces(defs, list, k, s, sent);
      ListIsRebuilt(v, paths);
      ListIsPaired(defs, ValuesAt(v, paths), n, Instr(Roll(-2), Instr(Drop(1), k)), s, sent, goal);
    }
  }

  /** The list takes the place of the item below it. */
  lemma ListReplaces(defs: Definitions, list: Value, k: Code, s: Stack, sent: Messages)
    requires s != []
    ensures Reaches(defs, Running(Instr(Roll(-2), Instr(Drop(1), k)), [list] + s, sent),
                    Running(k, [list] + s[1..], sent))
  {
    var goal := Running(k, [list] + s[1..], sent);
    var s1, s2 := [list] + s, [s[0], list] + s[1..];
    Here(defs, goal);
    assert s2[1..] == [list] + s[1..];
    OpThen(defs, Drop(1), k, s2, [list] + s[1..], sent, goal);
    assert s1[1..2] + [s1[0]] + s1[2..] == s2;
    OpThen(defs, Roll(-2), Instr(Drop(1), k), s1, s2, sent, goal);
  }

  /** The items on top of the stack become a list. */
  lemma ListIsPaired(defs: Definitions, vs: Stack, n: nat, k: Code, s: Stack, sent: Messages, goal: State)
    requires n == |vs| > 0 && Reaches(defs, Running(k, [ListOf(vs[..n - 1], vs[n - 1])] + s, sent), goal)
    ensures Reaches(defs, Running(Instr(MakePair(n - 1), k), vs + s, sent), goal)
  {
    var all := vs + s;
    assert all[..n - 1] == vs[..n - 1] && all[n - 1] == vs[n - 1] && all[n..] == s;
    OpThen(defs, MakePair(n - 1), k, all, [ListOf(vs[..n - 1], vs[n - 1])] + s, sent, goal);
  }

  lemma UndefCompacts(defs0: Definitions, env: Env, paths: seq<Option<Path>>, i: nat, c0: Code, c: Code, k: Code)
    requires i < |paths| && paths[i].None? && c == Instr(Push(UndefV), c0)
    requires CompactsFrom(defs0, env, paths, i, c0, k)
    ensures CompactsFrom(defs0, env, paths, i + 1, c, k)
  {
    var next := i + 1;
    forall defs, s: Stack, sent | Extends(defs0, defs) && 2 <= env.depth <= |s|
      ensures CompactsFromOn(defs, env, paths, next, c, k, s, sent)
    {
      var v := s[env.depth - 1];
      var vs := ValuesAt(v, paths);
      var goal := Running(k, [RebuildValue(v, paths)] + s[1..], sent);
      assert CompactsFromOn(defs, env, paths, i, c0, k, s, sent);
      assert vs[i..] + s == [UndefV] + (vs[next..] + s);
      OpThen(defs, Push(UndefV), c0, vs[next..] + s, vs[i..] + s, sent, goal);
    }
  }

  lemma PathCompacts(defs0: Definitions, env: Env, paths: seq<Option<Path>>, i: nat, c0: Code, c1: Code, c: Code,
                     k: Code)
    requires i < |paths| && paths[i].Some? && Walks(paths[i].value, c1, c0)
    requires c == Instr(Pick(env.depth + |paths| - i - 1), c1)
    requires CompactsFrom(defs0, env, paths, i, c0, k)
    ensures CompactsFrom(defs0, env, paths, i + 1, c, k)
  {
    var next := i + 1;
    forall defs, s: Stack, sent | Extends(defs0, defs) && 2 <= env.depth <= |s|
      ensures CompactsFromOn(defs, env, paths, next, c, k, s, sent)
    {
      var goal := Running(k, [RebuildValue(s[env.depth - 1], paths)] + s[1..], sent);
      assert CompactsFromOn(defs, env, paths, i, c0, k, s, sent);
      var vs := ValuesAt(s[env.depth - 1], paths);
      assert vs[i] == ValueAt(s[env.depth - 1], paths[i]);
      PathPushed(defs, vs, i, paths[i].value, env.depth, c0, c1, s, sent, goal);
    }
  }

  lemma PathPushed(defs: Definitions, vs: Stack, i: nat, path: Path, d: int, c0: Code, c1: Code, s: Stack,
                   sent: Messages,
                   goal: State)
    requires i < |vs| && 1 <= d <= |s| && vs[i] == NthPath(s[d - 1], path) && Walks(path, c1, c0)
    requires Reaches(defs, Running(c0, vs[i..] + s, sent), goal)
    ensures Reaches(defs, Running(Instr(Pick(d + |vs| - i - 1), c1), vs[i + 1..] + s, sent), goal)
  {
    PushedOn(vs, i, s, d);
    PickThen(defs, d + |vs| - i - 1, s[d - 1], path, c1, c0, vs[i + 1..] + s, sent, goal);
  }

  lemma PushedOn(vs: Stack, i: nat, s: Stack, d: int)
    requires i < |vs| && 1 <= d <= |s|
    ensures vs[i..] + s == [vs[i]] + (vs[i + 1..] + s)
    ensures (vs[i + 1..] + s)[d + |vs| - i - 2] == s[d - 1]
  {
    assert vs[i..] == [vs[i]] + vs[i + 1..];
  }

  lemma PickThen(defs: Definitions, n: int, v: Value, path: Path, c1: Code, c0: Code, s: Stack, sent: Messages,
                 goal: State)
    requires 1 <= n <= |s| && s[n - 1] == v && Walks(path, c1, c0)
    requires Reaches(defs, Running(c0, [NthPath(v, path)] + s, sent), goal)
    ensures Reaches(defs, Running(Instr(Pick(n), c1), s, sent), goal)
  {
    var s1 := [v] + s;
    assert s1[1..] == s;
    assert WalksOn(defs, path, c1, c0, s1, sent);
    Then(defs, Running(c1, s1, sent), Running(c0, [NthPath(v, path)] + s, sent), goal);
    OpThen(defs, Pick(n), c1, s, s1, sent, goal);
  }

  lemma AllCompact(defs0: Definitions, env: Env, paths: seq<Option<Path>>, c: Code, k: Code)
    requires paths != [] && CompactsFrom(defs0, env, paths, |paths|, c, k)
    ensures Compacts(defs0, env, paths, c, k)
  {
    var n := |paths|;
    forall defs, s: Stack, sent | Extends(defs0, defs) && 2 <= env.depth <= |s|
      ensures CompactsOn(defs, env, paths, c, k, s, sent)
    {
      assert CompactsFromOn(defs, env, paths, n, c, k, s, sent);
      assert ValuesAt(s[env.depth - 1], paths)[n..] + s == s;
    }
  }

  function DeclareAll(scope: Tree, stmts: seq<Stmt>): Tree
    decreases |stmts|
  {
    if stmts == [] then scope else DeclareAll(Declare(scope, stmts[0]), stmts[1..])
  }

  lemma {:induction false} DeclareAllIsDeclare(scope: Tree, stmts: seq<Stmt>)
    requires stmts != []
    ensures DeclareAll(scope, stmts) == Declare(scope, Unflatten(stmts))
    decreases |stmts|
  {
    if |stmts| > 1 {
      DeclareAllIsDeclare(Declare(scope, stmts[0]), stmts[1..]);
    } else {
      assert DeclareAll(Declare(scope, stmts[0]), stmts[1..]) == Declare(scope, stmts[0]);
    }
  }

  ghost predicate BlockRunsOn(defs: Definitions, g: Bindings, tree: Tree, st: Stmt, c: Code, envv: Value, k: Code,
                              s: Stack,
                              sent: Messages) {
    var start := Running(c, [envv, CodeV(k)] + s, sent);
    match Execute(g, Bound(tree, envv), sent, st)
    case Throw(reason) => Reaches(defs, start, Aborted(reason))
    case Next(_, sent') => Reaches(defs, start, Running(k, s, sent'))
  }

  /** Given an environment value and a continuation, the block executes its statements and continues. */
  ghost predicate BlockRuns(defs0: Definitions, g: Bindings, tree: Tree, st: Stmt, c: Code) {
    forall defs, envv, k, s: Stack, sent | Extends(defs0, defs) :: BlockRunsOn(defs, g, tree, st, c, envv, k, s, sent)
  }

  /** What is known when the names of a pattern are in scope. */
  lemma ScopeKnown(p: Ptrn, env: Env, depth: int)
    requires Unmarked(TreeOf(env))
    ensures Known(Scope(ShapeOf(p), env, depth)) == Names(p) + Known(env)
    ensures Unmarked(TreeOf(Scope(ShapeOf(p), env, depth)))
  {
    ShapeBinds(p, UndefV);
  }

  lemma BlockCode(defs0: Definitions, g: Bindings, outer: Env, inner: Env, tree: Tree, st: Stmt, c: Code)
    requires inner == Scope(EmptyScope, outer, 1)
    requires Performs(defs0, g, inner, tree, st, c, Instr(Drop(1), Jump))
    ensures BlockRuns(defs0, g, TreeOf(outer), st, Instr(Push(UndefV), Instr(MakePair(1), c)))
  {
    var code := Instr(Push(UndefV), Instr(MakePair(1), c));
    forall defs, envv, k, s: Stack, sent | Extends(defs0, defs)
      ensures BlockRunsOn(defs, g, TreeOf(outer), st, code, envv, k, s, sent)
    {
      assert PerformsOn(defs, g, inner, tree, st, c, Instr(Drop(1), Jump), [PairV(UndefV, envv), CodeV(k)] + s, sent);
      BlockCodeOn(defs, g, outer, inner, tree, st, c, envv, k, s, sent);
    }
  }

  lemma BlockCodeOn(defs: Definitions, g: Bindings, outer: Env, inner: Env, tree: Tree, st: Stmt, c: Code,
                    envv: Value, k: Code, s: Stack, sent: Messages)
    requires inner == Scope(EmptyScope, outer, 1)
    requires PerformsOn(defs, g, inner, tree, st, c, Instr(Drop(1), Jump), [PairV(UndefV, envv), CodeV(k)] + s, sent)
    ensures BlockRunsOn(defs, g, TreeOf(outer), st, Instr(Push(UndefV), Instr(MakePair(1), c)), envv, k, s, sent)
  {
    var s1 := [PairV(UndefV, envv), CodeV(k)] + s;
    BlockLocals(outer, inner, envv, s1);
    var out := Execute(g, Bound(TreeOf(outer), envv), sent, st);
    var goal := if out.Throw? then Aborted(out.reason) else Running(k, s, out.sent);
    if out.Next? {
      var v :| Bound(tree, v) == out.rho
               && Reaches(defs, Running(c, s1, sent), Running(Instr(Drop(1), Jump), s1[0 := v], out.sent));
      BlockEnds(defs, k, v, s, out.sent);
      assert s1[0 := v] == [v, CodeV(k)] + s;
      Then(defs, Running(c, s1, sent), Running(Instr(Drop(1), Jump), s1[0 := v], out.sent), goal);
    }
    BlockStarts(defs, c, k, envv, s, sent, goal);
  }

  lemma BlockLocals(outer: Env, inner: Env, envv: Value, s: Stack)
    requires inner == Scope(EmptyScope, outer, 1) && s != [] && s[0] == PairV(UndefV, envv)
    ensures Locals(inner, s) == Bound(TreeOf(outer), envv)
  {
    assert Bound(TreeOf(outer), envv) + map[] == Bound(TreeOf(outer), envv);
    assert Locals(inner, s) == Bound(TreeOf(outer), envv) + Bound(EmptyScope, UndefV);
  }

  lemma BlockEnds(defs: Definitions, k: Code, v: Value, s: Stack, sent: Messages)
    ensures Reaches(defs, Running(Instr(Drop(1), Jump), [v, CodeV(k)] + s, sent), Running(k, s, sent))
  {
    var goal := Running(k, s, sent);
    Here(defs, goal);
    assert ([CodeV(k)] + s)[1..] == s;
    First(defs, Running(Jump, [CodeV(k)] + s, sent), goal);
    assert ([v, CodeV(k)] + s)[1..] == [CodeV(k)] + s;
    OpThen(defs, Drop(1), Jump, [v, CodeV(k)] + s, [CodeV(k)] + s, sent, goal);
  }

  lemma BlockStarts(defs: Definitions, c: Code, k: Code, envv: Value, s: Stack, sent: Messages, goal: State)
    requires Reaches(defs, Running(c, [PairV(UndefV, envv), CodeV(k)] + s, sent), goal)
    ensures Reaches(defs, Running(Instr(Push(UndefV), Instr(MakePair(1), c)), [envv, CodeV(k)] + s, sent), goal)
  {
    var s0 := [envv, CodeV(k)] + s;
    var s1 := [UndefV, envv] + ([CodeV(k)] + s);
    PairOfTwo(UndefV, envv, [CodeV(k)] + s);
    assert [PairV(UndefV, envv)] + ([CodeV(k)] + s) == [PairV(UndefV, envv), CodeV(k)] + s;
    OpThen(defs, MakePair(1), c, s1, [PairV(UndefV, envv), CodeV(k)] + s, sent, goal);
    assert [UndefV] + s0 == s1;
    OpThen(defs, Push(UndefV), Instr(MakePair(1), c), s0, s1, sent, goal);
  }

  lemma ChosenLater(a: Definitions, b: Definitions, g: Bindings, env: Env, p: Ptrn, x: Expr, c: Code, k: Code)
    requires Chosen(a, g, env, p, x, c, k) && Extends(a, b)
    ensures Chosen(b, g, env, p, x, c, k)
  {
    forall defs, s: Stack, sent | Extends(b, defs) && 2 <= env.depth <= |s|
      ensures ChosenOn(defs, g, env, p, x, c, k, s, sent)
    {
      ExtendsTransitive(a, b, defs);
    }
  }

  lemma TakesLater(a: Definitions, b: Definitions, g: Bindings, env: Env, p: Ptrn, x: Expr, t: Code, k: Code)
    requires Takes(a, g, env, p, x, t, k) && Extends(a, b)
    ensures Takes(b, g, env, p, x, t, k)
  {
    forall defs, v, s: Stack, sent | Extends(b, defs) && 1 <= env.depth <= |s|
      ensures TakesOn(defs, g, env, p, x, t, k, v, s, sent)
    {
      ExtendsTransitive(a, b, defs);
    }
  }

  lemma SkipsLater(a: Definitions, b: Definitions, g: Bindings, env: Env, x: Expr, f: Code, k: Code)
    requires Skips(a, g, env, x, f, k) && Extends(a, b)
    ensures Skips(b, g, env, x, f, k)
  {
    forall defs, v, s: Stack, sent | Extends(b, defs) && 1 <= env.depth <= |s|
      ensures SkipsOn(defs, g, env, x, f, k, v, s, sent)
    {
      ExtendsTransitive(a, b, defs);
    }
  }

  lemma TestAssembled(defs1: Definitions, defs: Definitions, g: Bindings, env: Env, p: Ptrn, arg: Expr,
                      c1: Code, c2: Code, c: Code, branches: Code)
    requires Extends(defs1, defs) && c == Instr(Pick(env.depth), c1)
    requires Decides(defs1, g, At(env, env.depth + 3), p, c2, branches)
    requires Yields(defs, g, At(env, env.depth + 1), arg, c1, Instr(Dup(1), c2))
    ensures TestsFor(defs, g, env, p, arg, c, branches)
  {
    DecidesLater(defs1, defs, g, At(env, env.depth + 3), p, c2, branches);
  }

  /** The parts of an IF, generated one after the other while the definitions grow. */
  lemma IfAssembled(defs1: Definitions, defs: Definitions, g: Bindings, env: Env,
                    e: Expr, p: Ptrn, arg: Expr, branches: Code, c: Code, k: Code)
    requires Extends(defs1, defs)
    requires e.IfExpr? && Solve(e.left, e.right) == Some((p, arg))
    requires ForksFor(defs1, g, env, p, e.expr, e.next, branches, k)
    requires TestsFor(defs, g, env, p, arg, c, branches)
    ensures Yields(defs, g, env, e, c, k)
  {
    TakesLater(defs1, defs, g, env, p, e.expr, branches.t, k);
    SkipsLater(defs1, defs, g, env, e.next, branches.f, k);
    var c2 :| Yields(defs, g, At(env, env.depth + 1), arg, c.k, Instr(Dup(1), c2))
              && Decides(defs, g, At(env, env.depth + 3), p, c2, branches);
    IfYields(defs, g, env, e, p, arg, c.k, c2, branches.t, branches.f, c, k);
  }

  lemma ChoiceAssembled(defs0: Definitions, defs1: Definitions, defs: Definitions, g: Bindings, env: Env,
                        ch: Choice, c1: Code, branches: Code, c: Code, r: Code, k: Code)
    requires Extends(defs0, defs1) && Extends(defs1, defs)
    requires ch.CaseChoice? && Links(defs0, r, k) && c == Instr(Dup(1), c1)
    requires PicksFor(defs1, g, env, ch.ptrn, ch.expr, ch.next, branches, r)
    requires Decides(defs, g, At(env, env.depth + 1), ch.ptrn, c1, branches)
    ensures Selects(defs, g, env, ch, c, k)
  {
    ExtendsTransitive(defs0, defs1, defs);
    ChosenLater(defs1, defs, g, env, ch.ptrn, ch.expr, branches.t, r);
    SelectsLater(defs1, defs, g, env, ch.next, branches.f, r);
    ChoiceSelects(defs, g, env, ch, c1, branches.t, branches.f, c, r);
    SelectsVia(defs0, defs, g, env, ch, c, r, k);
  }

  lemma PairAssembled(defs0: Definitions, defs1: Definitions, defs: Definitions, g: Bindings, env: Env, p: Ptrn,
                      c1: Code, c2: Code, c: Code, r: Code, k: Code)
    requires Extends(defs0, defs1) && Extends(defs1, defs)
    requires p.PairPtrn? && Links(defs0, r, k)
    requires Decides(defs1, g, env, p.tail, c2, r)
    requires Decides(defs, g, At(env, env.depth + 1), p.head, c1, If(c2, ReplaceFalse(r)))
    requires c == Instr(Dup(1), Instr(IsPair, If(Instr(Part(1), c1), ReplaceFalse(r))))
    ensures Decides(defs, g, env, p, c, k)
  {
    ExtendsTransitive(defs0, defs1, defs);
    DecidesLater(defs1, defs, g, env, p.tail, c2, r);
    PairDecides(defs, g, env, p, c1, c2, c, r);
    DecidesVia(defs0, defs, g, env, p, c, r, k);
  }
}
