/**
 Humus expressions and blocks, compiled from scratch and run.
 */
module HumusCompile {
  import opened Prelude
  import opened HumusSyntax
  import opened HumusPaths
  import opened HumusMachine
  import opened HumusEval
  import opened HumusEnv
  import opened HumusCorrect
  import opened HumusCodegen
  import HumusSort
  import opened HumusAnalysis
  import opened HumusBlock

  /**
   Compiling an expression succeeds exactly if all its names are in scope. Then, on a stack with any
   value that mirrors the environment on top, the code goes on with exactly the evaluator's value pushed.
   */
  method CompileExpression(globals: Bindings, tree: Tree, e: Expr, k: Code)
    returns (ok: bool, c: Code, defs: Definitions)
    requires Unmarked(tree)
    ensures ok <==> Scoped(globals, NamesIn(tree), e)
    ensures ok ==> forall v: Value, s: Stack, sent: Messages :: ValuePushed(defs, globals, tree, e, c, k, v, s, sent)
  {
    var codegen := new Codegen(globals, Base(tree, 2));
    c := codegen.Generate(e, k);
    ok, defs := codegen.errors == 0, codegen.definitions;
    if ok {
      forall v: Value, s: Stack, sent: Messages ensures ValuePushed(defs, globals, tree, e, c, k, v, s, sent) {
        assert YieldsOn(defs, globals, codegen.env, e, c, k, [v] + s, sent);
      }
    }
  }

  ghost predicate ValuePushed(defs: Definitions, globals: Bindings, tree: Tree, e: Expr, c: Code, k: Code, v: Value,
                              s: Stack, sent: Messages) {
    Reaches(defs, Running(c, [v] + s, sent), Running(k, [Eval(globals, Bound(tree, v), e)] + ([v] + s), sent))
  }

  /**
   Compiling a pattern succeeds exactly if all its names are in scope. Then the code replaces any value
   on top of the environment value by whether it matches.
   */
  method CompilePattern(globals: Bindings, tree: Tree, p: Ptrn, k: Code) returns (ok: bool, c: Code, defs: Definitions)
    requires Unmarked(tree)
    ensures ok <==> PtrnScoped(globals, NamesIn(tree), p)
    ensures ok ==> forall x: Value, v: Value, s: Stack, sent: Messages ::
              MatchDecided(defs, globals, tree, p, c, k, x, v, s, sent)
  {
    var codegen := new Codegen(globals, Base(tree, 2));
    c := codegen.GenPtrnMatch(p, k);
    ok, defs := codegen.errors == 0, codegen.definitions;
    if ok {
      forall x: Value, v: Value, s: Stack, sent: Messages
        ensures MatchDecided(defs, globals, tree, p, c, k, x, v, s, sent)
      {
        var stack := [x] + ([v] + s);
        assert stack[1..] == [v] + s && stack[1] == v;
        assert DecidesOn(defs, globals, codegen.env, p, c, k, stack, sent);
      }
    }
  }

  ghost predicate MatchDecided(defs: Definitions, globals: Bindings, tree: Tree, p: Ptrn, c: Code, k: Code,
                               x: Value, v: Value, s: Stack, sent: Messages) {
    Reaches(defs, Running(c, [x] + ([v] + s), sent),
            Running(k, [BoolV(Matches(globals, Bound(tree, v), p, x))] + ([v] + s), sent))
  }

  /**
   Compiling a block. If there is no cycle and every use is known outside or of what a statement waits for, it succeeds
   exactly if no name is defined twice; without that, exactly if in the order that sorting finds every use is also
   known outside or defined earlier. If no statement binds what another one defines, it is enough that every use is
   known outside or defined elsewhere in the block. It runs as the evaluator executes the sorted statements one after
   the other.
   */
  method CompileBlock(globals: Bindings, tree: Tree, stmts: seq<Stmt>) returns (ok: bool, c: Code, defs: Definitions)
    requires Unmarked(tree) && Simple(stmts)
    ensures Simple(SortedStmts(stmts))
    ensures ok <==>
            && FreshBlock(EmptyScope, SortedStmts(stmts))
            && StmtScoped(globals, NamesIn(tree), Unflatten(SortedStmts(stmts)))
    ensures Sortable(stmts) && Awaited(globals, NamesIn(tree), stmts) ==>
              (ok <==> FreshBlock(EmptyScope, SortedStmts(stmts)))
    ensures Sortable(stmts) && Seen(stmts) ==>
              (ok <==> FreshBlock(EmptyScope, SortedStmts(stmts)) && Covered(globals, NamesIn(tree), stmts))
    ensures Sortable(stmts) && Clear(stmts) ==>
              (ok <==> FreshBlock(EmptyScope, SortedStmts(stmts)) && Covered(globals, NamesIn(tree), stmts))
    ensures Sortable(stmts) && Plain(stmts) ==> (FreshBlock(EmptyScope, SortedStmts(stmts)) <==> DefinedOnce(stmts))
    ensures ok ==> BlockRuns(defs, globals, tree, Unflatten(SortedStmts(stmts)), c)
  {
    var codegen := new Codegen(globals, Base(tree, 1));
    c := codegen.GenBlockCode(stmts);
    ok, defs := codegen.errors == 0, codegen.definitions;
    if Sortable(stmts) { SortedAccepted(globals, NamesIn(tree), stmts); }
    if Clear(stmts) { ClearIsSeen(stmts); }
  }

  ghost predicate Sortable(stmts: seq<Stmt>) { !HumusSort.Cyclic(Analyses(stmts)) }

  lemma SortedAccepted(globals: Bindings, known: set<string>, stmts: seq<Stmt>)
    requires Simple(stmts) && Simple(SortedStmts(stmts)) && Sortable(stmts)
    ensures Awaited(globals, known, stmts) ==> StmtScoped(globals, known, Unflatten(SortedStmts(stmts)))
    ensures Seen(stmts) ==>
              (StmtScoped(globals, known, Unflatten(SortedStmts(stmts))) <==> Covered(globals, known, stmts))
    ensures Plain(stmts) ==> (FreshBlock(EmptyScope, SortedStmts(stmts)) <==> DefinedOnce(stmts))
  {
    var order := HumusSort.SortOrder(Analyses(stmts)).value;
    if Awaited(globals, known, stmts) { AwaitedInScope(globals, known, stmts, order); }
    if Seen(stmts) { SortedInScope(globals, known, stmts, order); }
    if Plain(stmts) { FreshInAnyOrder(stmts, order); }
  }
}
