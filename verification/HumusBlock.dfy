/**
 Which blocks the compiler accepts once it has sorted them.
 */
module HumusBlock {
  import opened Prelude
  import opened HumusSyntax
  import opened HumusPaths
  import opened HumusMachine
  import opened HumusEval
  import opened HumusEnv
  import opened HumusSort
  import opened HumusAnalysis
  import opened HumusVisit

  function Unflatten(stmts: seq<Stmt>): Stmt
    requires stmts != []
  {
    if |stmts| == 1 then stmts[0] else StmtPair(stmts[0], Unflatten(stmts[1..]))
  }

  function DefPtrn(s: Stmt): Option<Ptrn> {
    match s
    case DefStmt(p, _) => Some(p)
    case LetStmt(l, r) => if Solve(l, r).Some? then Some(Solve(l, r).value.0) else None
    case _ => None
  }

  predicate FreshIn(scope: Tree, p: Ptrn) {
    forall x <- PtrnIdents(p) :: x !in NamesIn(scope)
  }

  /** No definition of the block names what an earlier one has named. */
  predicate FreshBlock(scope: Tree, stmts: seq<Stmt>)
    decreases |stmts|
  {
    stmts != [] ==>
      && (DefPtrn(stmts[0]).Some? ==> FreshIn(scope, DefPtrn(stmts[0]).value))
      && FreshBlock(Declare(scope, stmts[0]), stmts[1..])
  }

  const EmptyScope := Leaf(None, {})

  predicate Simple(stmts: seq<Stmt>) { stmts != [] && forall s <- stmts :: !s.StmtPair? }

  // ----- Sorted blocks -----

  function Arrange(stmts: seq<Stmt>, order: seq<nat>): seq<Stmt>
    requires forall b <- order :: b < |stmts|
  {
    seq(|order|, i requires 0 <= i < |order| => assert order[i] in order; stmts[order[i]])
  }

  /** The statements in the order that sorting finds, or, if there is none, as they were. */
  function SortedStmts(stmts: seq<Stmt>): seq<Stmt> {
    match SortOrder(Analyses(stmts))
    case None => stmts
    case Some(order) => Arrange(stmts, order)
  }

  // ----- Scopes in a block -----

  function DefinedIn(stmts: seq<Stmt>): set<string> {
    if stmts == [] then {} else DefinedBy(stmts[0]) + DefinedIn(stmts[1..])
  }

  lemma {:induction false} DefinedWhere(stmts: seq<Stmt>, x: string)
    ensures x in DefinedIn(stmts) <==> exists j :: 0 <= j < |stmts| && x in DefinedBy(stmts[j])
  {
    if stmts != [] {
      DefinedWhere(stmts[1..], x);
      if j :| 0 <= j < |stmts| && x in DefinedBy(stmts[j]) {
        if j > 0 { assert x in DefinedBy(stmts[1..][j - 1]); }
      }
      if j :| 0 <= j < |stmts[1..]| && x in DefinedBy(stmts[1..][j]) {
        assert x in DefinedBy(stmts[j + 1]);
      }
    }
  }

  predicate ScopedAt(globals: Bindings, known: set<string>, stmts: seq<Stmt>, i: nat)
    requires i < |stmts|
  {
    StmtSound(stmts[i]) && StmtUses(stmts[i]) <= known + DefinedIn(stmts[..i]) + globals.Keys
  }

  /** In a block every statement sees what those before it define. */
  lemma {:induction false} UnflattenScoped(globals: Bindings, known: set<string>, stmts: seq<Stmt>)
    requires Simple(stmts)
    ensures StmtScoped(globals, known, Unflatten(stmts)) <==>
            forall i :: 0 <= i < |stmts| ==> ScopedAt(globals, known, stmts, i)
    decreases |stmts|
  {
    var s, rest := stmts[0], stmts[1..];
    assert s in stmts;
    StmtInScope(globals, known, s);
    assert stmts[..0] == [] && known + {} == known;
    if rest == [] {
      assert stmts == [s];
    } else {
      assert forall x <- rest :: x in stmts;
      UnflattenScoped(globals, DefinedBy(s) + known, rest);
      forall i | 1 <= i < |stmts|
        ensures ScopedAt(globals, known, stmts, i) <==> ScopedAt(globals, DefinedBy(s) + known, rest, i - 1)
      {
        ScopedNext(globals, known, stmts, i);
      }
      if forall i :: 0 <= i < |stmts| ==> ScopedAt(globals, known, stmts, i) {
        forall i | 0 <= i < |rest| ensures ScopedAt(globals, DefinedBy(s) + known, rest, i) {
          assert ScopedAt(globals, known, stmts, i + 1);
        }
      }
    }
    assert StmtScoped(globals, known, s) <==> ScopedAt(globals, known, stmts, 0);
  }

  lemma ScopedNext(globals: Bindings, known: set<string>, stmts: seq<Stmt>, i: nat)
    requires 1 <= i < |stmts|
    ensures ScopedAt(globals, known, stmts, i) <==> ScopedAt(globals, DefinedBy(stmts[0]) + known, stmts[1..], i - 1)
  {
    var rest := stmts[1..];
    assert stmts[..i][1..] == rest[..i - 1];
    assert known + (DefinedBy(stmts[0]) + DefinedIn(rest[..i - 1])) ==
             DefinedBy(stmts[0]) + known + DefinedIn(rest[..i - 1]);
  }

  function DefIdents(s: Stmt): set<string> {
    match DefPtrn(s) case None => {} case Some(p) => set x | x in PtrnIdents(p)
  }

  predicate FreshAt(scope: Tree, stmts: seq<Stmt>, i: nat)
    requires i < |stmts|
  {
    DefIdents(stmts[i]) !! NamesIn(scope) + DefinedIn(stmts[..i])
  }

  lemma {:induction false} FreshByPlace(scope: Tree, stmts: seq<Stmt>)
    requires Unmarked(scope)
    ensures FreshBlock(scope, stmts) <==> forall i :: 0 <= i < |stmts| ==> FreshAt(scope, stmts, i)
    decreases |stmts|
  {
    if stmts != [] {
      var s, rest := stmts[0], stmts[1..];
      DeclareNames(scope, s);
      FreshByPlace(Declare(scope, s), rest);
      assert stmts[..0] == [] && NamesIn(scope) + {} == NamesIn(scope);
      forall i | 1 <= i < |stmts| ensures FreshAt(scope, stmts, i) <==> FreshAt(Declare(scope, s), rest, i - 1) {
        FreshNext(scope, stmts, i);
      }
      if forall i :: 0 <= i < |stmts| ==> FreshAt(scope, stmts, i) {
        forall i | 0 <= i < |rest| ensures FreshAt(Declare(scope, s), rest, i) {
          assert FreshAt(scope, stmts, i + 1);
        }
      }
      assert (DefPtrn(s).Some? ==> FreshIn(scope, DefPtrn(s).value)) <==> FreshAt(scope, stmts, 0);
    }
  }

  lemma FreshNext(scope: Tree, stmts: seq<Stmt>, i: nat)
    requires Unmarked(scope) && 1 <= i < |stmts|
    ensures FreshAt(scope, stmts, i) <==> FreshAt(Declare(scope, stmts[0]), stmts[1..], i - 1)
  {
    var s, rest := stmts[0], stmts[1..];
    DeclareNames(scope, s);
    assert stmts[..i][1..] == rest[..i - 1];
    assert NamesIn(scope) + (DefinedBy(s) + DefinedIn(rest[..i - 1])) ==
             DefinedBy(s) + NamesIn(scope) + DefinedIn(rest[..i - 1]);
  }

  // ----- What is accepted, in whatever order -----

  predicate DefinedElsewhere(stmts: seq<Stmt>, a: nat, x: string) {
    exists b :: 0 <= b < |stmts| && b != a && x in DefinedBy(stmts[b])
  }

  /** Whatever a statement uses is known outside or defined by another statement. */
  predicate Covered(globals: Bindings, known: set<string>, stmts: seq<Stmt>) {
    forall a :: 0 <= a < |stmts| ==>
      && StmtSound(stmts[a])
      && forall x <- StmtUses(stmts[a]) :: x in known || x in globals || DefinedElsewhere(stmts, a, x)
  }

  /** Sorting sees every use of what another statement defines. */
  predicate Seen(stmts: seq<Stmt>) {
    forall a, b :: 0 <= a < |stmts| && 0 <= b < |stmts| && a != b ==>
      StmtUses(stmts[a]) * DefinedBy(stmts[b]) <= Analyze(stmts[a]).free
  }

  ghost predicate Permutes(stmts: seq<Stmt>, order: seq<nat>) {
    HumusSort.Distinct(order) && forall b :: 0 <= b < |stmts| <==> b in order
  }

  /** A block that is accepted in any order is covered. */
  lemma ScopedIsCovered(globals: Bindings, known: set<string>, stmts: seq<Stmt>, order: seq<nat>)
    requires Simple(stmts) && Permutes(stmts, order) && Simple(Arrange(stmts, order))
    requires StmtScoped(globals, known, Unflatten(Arrange(stmts, order)))
    ensures Covered(globals, known, stmts)
  {
    var arranged := Arrange(stmts, order);
    UnflattenScoped(globals, known, arranged);
    forall a | 0 <= a < |stmts|
      ensures StmtSound(stmts[a])
      ensures forall x <- StmtUses(stmts[a]) :: x in known || x in globals || DefinedElsewhere(stmts, a, x)
    {
      assert a in order;
      var i :| 0 <= i < |order| && order[i] == a;
      assert ScopedAt(globals, known, arranged, i);
      forall x <- StmtUses(stmts[a]) ensures x in known || x in globals || DefinedElsewhere(stmts, a, x) {
        if x !in known && x !in globals {
          DefinedWhere(arranged[..i], x);
          var j :| 0 <= j < i && x in DefinedBy(arranged[j]);
          assert order[j] in order && order[j] != order[i];
          assert x in DefinedBy(stmts[order[j]]);
        }
      }
    }
  }

  /** What another statement defines comes before its uses, if sorting has seen them. */
  lemma DefinedBefore(stmts: seq<Stmt>, order: seq<nat>, i: nat, b: nat, x: string)
    requires Topological(Analyses(stmts), order) && Seen(stmts) && Simple(stmts) && i < |order|
    requires b < |stmts| && b != order[i] && x in DefinedBy(stmts[b]) && StmtSound(stmts[b])
    requires order[i] in order && x in StmtUses(stmts[order[i]])
    ensures x in DefinedIn(Arrange(stmts, order)[..i])
  {
    var a := order[i];
    assert stmts[b] in stmts;
    DefinesSame(stmts[b]);
    assert x in StmtUses(stmts[a]) * DefinedBy(stmts[b]);
    assert x in Analyses(stmts)[b].define * Analyses(stmts)[a].free;
    assert b in Dependencies(Analyses(stmts), a);
    var j :| 0 <= j < i && order[..i][j] == b;
    assert x in DefinedBy(Arrange(stmts, order)[..i][j]);
    DefinedWhere(Arrange(stmts, order)[..i], x);
  }

  lemma CoveredIsScoped(globals: Bindings, known: set<string>, stmts: seq<Stmt>, order: seq<nat>)
    requires Simple(stmts) && Topological(Analyses(stmts), order) && Simple(Arrange(stmts, order))
    requires Seen(stmts) && Covered(globals, known, stmts)
    ensures StmtScoped(globals, known, Unflatten(Arrange(stmts, order)))
  {
    var arranged := Arrange(stmts, order);
    UnflattenScoped(globals, known, arranged);
    forall i | 0 <= i < |arranged| ensures ScopedAt(globals, known, arranged, i) {
      var a := order[i];
      assert a in order;
      forall x <- StmtUses(stmts[a]) ensures x in known + DefinedIn(arranged[..i]) + globals.Keys {
        if x !in known && x !in globals {
          var b :| 0 <= b < |stmts| && b != a && x in DefinedBy(stmts[b]);
          DefinedBefore(stmts, order, i, b, x);
        }
      }
    }
  }

  lemma ArrangedSimple(stmts: seq<Stmt>, order: seq<nat>)
    requires Simple(stmts) && Permutes(stmts, order)
    ensures Simple(Arrange(stmts, order))
  {
    assert 0 in order;
    forall s <- Arrange(stmts, order) ensures !s.StmtPair? {
      var i :| 0 <= i < |order| && s == Arrange(stmts, order)[i];
      assert order[i] in order && stmts[order[i]] in stmts;
    }
  }

  /**
   If sorting sees all uses, a sorted block is in scope exactly if every use is known outside or defined elsewhere.
   */
  lemma SortedInScope(globals: Bindings, known: set<string>, stmts: seq<Stmt>, order: seq<nat>)
    requires Simple(stmts) && Topological(Analyses(stmts), order) && Seen(stmts)
    ensures Simple(Arrange(stmts, order))
    ensures StmtScoped(globals, known, Unflatten(Arrange(stmts, order))) <==> Covered(globals, known, stmts)
  {
    ArrangedSimple(stmts, order);
    if Covered(globals, known, stmts) {
      CoveredIsScoped(globals, known, stmts, order);
    } else if StmtScoped(globals, known, Unflatten(Arrange(stmts, order))) {
      ScopedIsCovered(globals, known, stmts, order);
    }
  }

  // ----- Exactly which blocks can be sorted into scope -----

  /** A statement waits for another, directly or through others, in the eyes of the sorting. */
  ghost predicate Awaits(analyses: seq<Analysis>, a: nat, b: nat) {
    exists path: seq<nat> :: |path| >= 2 && path[0] == a && path[|path| - 1] == b && Chain(analyses, path)
  }

  ghost predicate DefinedByAwaited(stmts: seq<Stmt>, a: nat, x: string) {
    exists b :: 0 <= b < |stmts| && x in DefinedBy(stmts[b]) && Awaits(Analyses(stmts), a, b)
  }

  /** Whatever a statement uses is known outside or defined by a statement that it waits for. */
  ghost predicate Awaited(globals: Bindings, known: set<string>, stmts: seq<Stmt>) {
    forall a :: 0 <= a < |stmts| ==>
      && StmtSound(stmts[a])
      && forall x <- StmtUses(stmts[a]) :: x in known || x in globals || DefinedByAwaited(stmts, a, x)
  }

  ghost predicate InScope(globals: Bindings, known: set<string>, stmts: seq<Stmt>, order: seq<nat>) {
    && Permutes(stmts, order) && Simple(Arrange(stmts, order))
    && StmtScoped(globals, known, Unflatten(Arrange(stmts, order)))
  }

  lemma AwaitedIsEarlier(stmts: seq<Stmt>, order: seq<nat>, i: nat, b: nat)
    requires Topological(Analyses(stmts), order) && i < |order| && Awaits(Analyses(stmts), order[i], b)
    ensures b in order[..i]
  {
    var path: seq<nat> :|
      |path| >= 2 && path[0] == order[i] && path[|path| - 1] == b && Chain(Analyses(stmts), path);
    ChainDescends(Analyses(stmts), order, path, |path| - 1);
    var k, j :| 0 <= k < j < |order| && order[k] == b && order[j] == order[i];
    assert j == i;
    assert order[..i][k] == b;
  }

  lemma AwaitedInScope(globals: Bindings, known: set<string>, stmts: seq<Stmt>, order: seq<nat>)
    requires Simple(stmts) && Topological(Analyses(stmts), order) && Awaited(globals, known, stmts)
    ensures InScope(globals, known, stmts, order)
  {
    ArrangedSimple(stmts, order);
    var arranged := Arrange(stmts, order);
    UnflattenScoped(globals, known, arranged);
    forall i | 0 <= i < |arranged| ensures ScopedAt(globals, known, arranged, i) {
      var a := order[i];
      assert a in order;
      forall x <- StmtUses(stmts[a]) ensures x in known + DefinedIn(arranged[..i]) + globals.Keys {
        if x !in known && x !in globals {
          var b :| 0 <= b < |stmts| && x in DefinedBy(stmts[b]) && Awaits(Analyses(stmts), a, b);
          AwaitedIsEarlier(stmts, order, i, b);
          var k :| 0 <= k < i && order[..i][k] == b;
          assert x in DefinedBy(arranged[..i][k]);
          DefinedWhere(arranged[..i], x);
        }
      }
    }
  }

  // ----- The order that starts with what a statement waits for -----

  function Keep(order: seq<nat>, s: set<nat>): seq<nat> {
    if order == [] then []
    else
      var last := |order| - 1;
      Keep(order[..last], s) + if order[last] in s then [order[last]] else []
  }

  /** Keeping some of an order keeps them in order. */
  lemma {:induction false} KeepOrder(analyses: seq<Analysis>, order: seq<nat>, s: set<nat>)
    requires HumusSort.Distinct(order) && Backward(analyses, order)
    ensures HumusSort.Distinct(Keep(order, s))
    ensures forall b :: b in Keep(order, s) <==> b in order && b in s
    ensures forall i :: 0 <= i < |Keep(order, s)| ==>
              forall b <- Dependencies(analyses, Keep(order, s)[i]) :: b in s ==> b in Keep(order, s)[..i]
  {
    if order != [] {
      var front, last := order[..|order| - 1], order[|order| - 1];
      FrontBackward(analyses, order);
      KeepOrder(analyses, front, s);
      var kept, all := Keep(front, s), Keep(order, s);
      assert order == front + [last];
      forall i | 0 <= i < |all| ensures forall b <- Dependencies(analyses, all[i]) :: b in s ==> b in all[..i] {
        if i < |kept| {
          assert all[..i] == kept[..i] && all[i] == kept[i];
        } else {
          assert all[..i] == kept && all[i] == last && order[..|order| - 1] == front;
        }
      }
    }
  }

  lemma FrontBackward(analyses: seq<Analysis>, order: seq<nat>)
    requires order != [] && HumusSort.Distinct(order) && Backward(analyses, order)
    ensures var front := order[..|order| - 1];
            && HumusSort.Distinct(front) && Backward(analyses, front) && order[|order| - 1] !in front
            && forall b <- Dependencies(analyses, order[|order| - 1]) :: b in front
  {
    var front := order[..|order| - 1];
    forall i | 0 <= i < |front| ensures forall b <- Dependencies(analyses, front[i]) :: b in front[..i] {
      assert order[..i] == front[..i] && order[i] == front[i];
    }
  }

  ghost function Closure(analyses: seq<Analysis>, a: nat): set<nat> {
    set b | 0 <= b < |analyses| && Awaits(analyses, a, b)
  }

  lemma ClosureClosed(analyses: seq<Analysis>, a: nat, e: nat, d: nat)
    requires (e == a || e in Closure(analyses, a)) && d in Dependencies(analyses, e)
    ensures d in Closure(analyses, a)
  {
    if e == a {
      assert Chain(analyses, [a, d]);
    } else {
      var path: seq<nat> :| |path| >= 2 && path[0] == a && path[|path| - 1] == e && Chain(analyses, path);
      ChainGrows(analyses, path, d);
      var longer := path + [d];
      assert longer[0] == a && longer[|longer| - 1] == d;
    }
  }

  /** First what a statement waits for, then the statement, then the others. */
  ghost function Hurried(analyses: seq<Analysis>, order: seq<nat>, a: nat): seq<nat> {
    var first := Closure(analyses, a);
    Keep(order, first) + ([a] + Keep(order, (set b | b in order) - first - {a}))
  }

  lemma HurriedSorts(analyses: seq<Analysis>, order: seq<nat>, a: nat)
    requires Topological(analyses, order) && a < |analyses|
    ensures Topological(analyses, Hurried(analyses, order, a))
  {
    var first := Closure(analyses, a);
    var others := (set b | b in order) - first - {a};
    var x, y := Keep(order, first), Keep(order, others);
    OrderedHasNoCycle(analyses, order);
    assert a !in first;
    KeepOrder(analyses, order, first);
    KeepOrder(analyses, order, others);
    HurriedDistinct(x, a, y);
    forall b ensures 0 <= b < |analyses| <==> b in x + ([a] + y) {
      assert b in x + ([a] + y) <==> b in x || b == a || b in y;
      assert b in first ==> 0 <= b < |analyses|;
    }
    HurriedBackward(analyses, order, a, x, y);
  }

  lemma HurriedDistinct(x: seq<nat>, a: nat, y: seq<nat>)
    requires HumusSort.Distinct(x) && HumusSort.Distinct(y) && a !in x && a !in y && forall b <- x :: b !in y
    ensures HumusSort.Distinct(x + ([a] + y))
  {
    var z := x + ([a] + y);
    forall i, j | 0 <= i < j < |z| ensures z[i] != z[j] {
      assert i < |x| ==> z[i] in x;
      assert i == |x| ==> z[i] == a;
      assert j > |x| ==> z[j] == y[j - |x| - 1];
      assert i > |x| ==> z[i] == y[i - |x| - 1];
    }
  }

  lemma HurriedBackward(analyses: seq<Analysis>, order: seq<nat>, a: nat, x: seq<nat>, y: seq<nat>)
    requires Topological(analyses, order) && a < |analyses|
    requires x == Keep(order, Closure(analyses, a))
    requires y == Keep(order, (set b | b in order) - Closure(analyses, a) - {a})
    ensures Backward(analyses, x + ([a] + y))
  {
    var first, z := Closure(analyses, a), x + ([a] + y);
    KeepOrder(analyses, order, first);
    forall i | 0 <= i < |z| ensures forall d <- Dependencies(analyses, z[i]) :: d in z[..i] {
      if i < |x| {
        assert z[i] == x[i] && z[..i] == x[..i];
        assert x[i] in x;
        forall d <- Dependencies(analyses, z[i]) ensures d in z[..i] {
          ClosureClosed(analyses, a, x[i], d);
        }
      } else if i == |x| {
        assert z[i] == a && z[..i] == x;
        AwaitedFirst(analyses, order, a, x);
      } else {
        assert z[i] == y[i - |x| - 1] && z[..i] == x + ([a] + y[..i - |x| - 1]);
        OthersLater(analyses, order, a, x, y, i - |x| - 1);
      }
    }
  }

  lemma AwaitedFirst(analyses: seq<Analysis>, order: seq<nat>, a: nat, x: seq<nat>)
    requires Topological(analyses, order) && x == Keep(order, Closure(analyses, a))
    ensures forall d <- Dependencies(analyses, a) :: d in x
  {
    KeepOrder(analyses, order, Closure(analyses, a));
    forall d <- Dependencies(analyses, a) ensures d in x {
      ClosureClosed(analyses, a, a, d);
      assert d in order;
    }
  }

  lemma OthersLater(analyses: seq<Analysis>, order: seq<nat>, a: nat, x: seq<nat>, y: seq<nat>, k: nat)
    requires Topological(analyses, order) && x == Keep(order, Closure(analyses, a))
    requires y == Keep(order, (set b | b in order) - Closure(analyses, a) - {a}) && k < |y|
    ensures forall d <- Dependencies(analyses, y[k]) :: d in x + ([a] + y[..k])
  {
    KeepOrder(analyses, order, Closure(analyses, a));
    KeepOrder(analyses, order, (set b | b in order) - Closure(analyses, a) - {a});
    forall d <- Dependencies(analyses, y[k]) ensures d in x + ([a] + y[..k]) {
      assert d in order;
    }
  }

  /** A use that is not of what a statement waits for is out of scope when the statement is hurried. */
  lemma HurriedOutOfScope(globals: Bindings, known: set<string>, stmts: seq<Stmt>, order: seq<nat>, a: nat, x: string)
    requires Simple(stmts) && Topological(Analyses(stmts), order) && a < |stmts| && x in StmtUses(stmts[a])
    requires x !in known && x !in globals && !DefinedByAwaited(stmts, a, x)
    ensures var hurried := Hurried(Analyses(stmts), order, a);
            Topological(Analyses(stmts), hurried) && !InScope(globals, known, stmts, hurried)
  {
    var analyses := Analyses(stmts);
    var first, hurried := Closure(analyses, a), Hurried(analyses, order, a);
    HurriedSorts(analyses, order, a);
    KeepOrder(analyses, order, first);
    ArrangedSimple(stmts, hurried);
    var arranged, p := Arrange(stmts, hurried), |Keep(order, first)|;
    UnflattenScoped(globals, known, arranged);
    assert arranged[p] == stmts[a];
    forall j | 0 <= j < p ensures x !in DefinedBy(arranged[..p][j]) {
      assert hurried[j] == Keep(order, first)[j];
      assert hurried[j] in first;
    }
    DefinedWhere(arranged[..p], x);
    assert !ScopedAt(globals, known, arranged, p);
  }

  /**
   A block is in scope in every order in which it can be sorted if and only if its statements are sound and whatever
   they use is known outside or defined by a statement that they wait for.
   */
  lemma SortedExactly(globals: Bindings, known: set<string>, stmts: seq<Stmt>)
    requires Simple(stmts) && !Cyclic(Analyses(stmts))
    ensures (forall order :: Topological(Analyses(stmts), order) ==> InScope(globals, known, stmts, order))
       <==> Awaited(globals, known, stmts)
  {
    if Awaited(globals, known, stmts) {
      forall order | Topological(Analyses(stmts), order) ensures InScope(globals, known, stmts, order) {
        AwaitedInScope(globals, known, stmts, order);
      }
    } else {
      var order := SortOrder(Analyses(stmts)).value;
      var a :| 0 <= a < |stmts|
               && !(StmtSound(stmts[a])
                    && forall x <- StmtUses(stmts[a]) :: x in known || x in globals || DefinedByAwaited(stmts, a, x));
      if !StmtSound(stmts[a]) {
        UnsoundOutOfScope(globals, known, stmts, order, a);
      } else {
        var x :| x in StmtUses(stmts[a]) && x !in known && x !in globals && !DefinedByAwaited(stmts, a, x);
        HurriedOutOfScope(globals, known, stmts, order, a, x);
      }
    }
  }

  /**
   Sorting loses nothing: of a block that is in scope in some order, that holds for every order in which it can be
   sorted if and only if every use is known outside or of what a statement waits for.
   */
  lemma SortingLosesNothing(globals: Bindings, known: set<string>, stmts: seq<Stmt>, other: seq<nat>)
    requires Simple(stmts) && !Cyclic(Analyses(stmts)) && InScope(globals, known, stmts, other)
    ensures (forall order :: Topological(Analyses(stmts), order) ==> InScope(globals, known, stmts, order))
       <==> forall a, x :: 0 <= a < |stmts| && x in StmtUses(stmts[a]) ==>
              x in known || x in globals || DefinedByAwaited(stmts, a, x)
    ensures Seen(stmts) ==>
              forall order :: Topological(Analyses(stmts), order) ==> InScope(globals, known, stmts, order)
  {
    ScopedIsCovered(globals, known, stmts, other);
    SortedExactly(globals, known, stmts);
    if Seen(stmts) { SeenIsAwaited(globals, known, stmts); }
    if forall a, x :: 0 <= a < |stmts| && x in StmtUses(stmts[a]) ==>
         x in known || x in globals || DefinedByAwaited(stmts, a, x) {
      assert Awaited(globals, known, stmts);
    }
  }

  lemma UnsoundOutOfScope(globals: Bindings, known: set<string>, stmts: seq<Stmt>, order: seq<nat>, a: nat)
    requires Simple(stmts) && Topological(Analyses(stmts), order) && a < |stmts| && !StmtSound(stmts[a])
    ensures !InScope(globals, known, stmts, order)
  {
    ArrangedSimple(stmts, order);
    UnflattenScoped(globals, known, Arrange(stmts, order));
    assert a in order;
    var i :| 0 <= i < |order| && order[i] == a;
    assert !ScopedAt(globals, known, Arrange(stmts, order), i);
  }

  // ----- The order that sorting finds -----

  /** A definition of the name comes earlier in the order. */
  predicate DefinedEarlier(stmts: seq<Stmt>, order: seq<nat>, i: nat, x: string)
    requires i <= |order| && forall b <- order :: b < |stmts|
  {
    exists j :: 0 <= j < i && (assert order[j] in order; x in DefinedBy(stmts[order[j]]))
  }

  /**
   The block as it is sorted is in scope if and only if every use is known outside or defined earlier in the order that
   is found.
   */
  lemma SortedByPlace(globals: Bindings, known: set<string>, stmts: seq<Stmt>, order: seq<nat>)
    requires Simple(stmts) && SortOrder(Analyses(stmts)) == Some(order)
    ensures Simple(SortedStmts(stmts)) && SortedStmts(stmts) == Arrange(stmts, order)
    ensures StmtScoped(globals, known, Unflatten(SortedStmts(stmts))) <==>
            forall i :: 0 <= i < |order| ==> UsesEarlier(globals, known, stmts, order, i)
  {
    ArrangedSimple(stmts, order);
    var arranged := Arrange(stmts, order);
    UnflattenScoped(globals, known, arranged);
    forall i | 0 <= i < |order|
      ensures ScopedAt(globals, known, arranged, i) <==> UsesEarlier(globals, known, stmts, order, i)
    {
      ScopedByPlace(globals, known, stmts, order, i);
    }
  }

  predicate UsesEarlier(globals: Bindings, known: set<string>, stmts: seq<Stmt>, order: seq<nat>, i: nat)
    requires i < |order| && forall b <- order :: b < |stmts|
  {
    assert order[i] in order;
    && StmtSound(stmts[order[i]])
    && forall x <- StmtUses(stmts[order[i]]) :: x in known || x in globals || DefinedEarlier(stmts, order, i, x)
  }

  lemma ScopedByPlace(globals: Bindings, known: set<string>, stmts: seq<Stmt>, order: seq<nat>, i: nat)
    requires i < |order| && forall b <- order :: b < |stmts|
    ensures ScopedAt(globals, known, Arrange(stmts, order), i) <==> UsesEarlier(globals, known, stmts, order, i)
  {
    assert order[i] in order;
    forall x ensures x in DefinedIn(Arrange(stmts, order)[..i]) <==> DefinedEarlier(stmts, order, i, x) {
      EarlierIsDefined(stmts, order, i, x);
    }
  }

  lemma EarlierIsDefined(stmts: seq<Stmt>, order: seq<nat>, i: nat, x: string)
    requires i <= |order| && forall b <- order :: b < |stmts|
    ensures x in DefinedIn(Arrange(stmts, order)[..i]) <==> DefinedEarlier(stmts, order, i, x)
  {
    var arranged := Arrange(stmts, order);
    DefinedWhere(arranged[..i], x);
    if j :| 0 <= j < i && x in DefinedBy(arranged[..i][j]) {
      assert order[j] in order && x in DefinedBy(stmts[order[j]]);
    }
    if DefinedEarlier(stmts, order, i, x) {
      var j :| 0 <= j < i && (assert order[j] in order; x in DefinedBy(stmts[order[j]]));
      assert x in DefinedBy(arranged[..i][j]);
    }
  }

  /** What sorting sees is awaited. */
  lemma SeenIsAwaited(globals: Bindings, known: set<string>, stmts: seq<Stmt>)
    requires Simple(stmts) && Seen(stmts) && Covered(globals, known, stmts)
    ensures Awaited(globals, known, stmts)
  {
    forall a, x | 0 <= a < |stmts| && x in StmtUses(stmts[a]) && x !in known && x !in globals
      ensures DefinedByAwaited(stmts, a, x)
    {
      var b :| 0 <= b < |stmts| && b != a && x in DefinedBy(stmts[b]);
      assert stmts[b] in stmts;
      DefinesSame(stmts[b]);
      assert x in StmtUses(stmts[a]) * DefinedBy(stmts[b]);
      assert x in Analyses(stmts)[b].define * Analyses(stmts)[a].free;
      assert Chain(Analyses(stmts), [a, b]);
    }
  }

  // ----- Blocks of which sorting sees everything -----

  /** No statement binds, anywhere in it, what another statement defines. */
  predicate Clear(stmts: seq<Stmt>) {
    forall a, b, x | 0 <= a < |stmts| && 0 <= b < |stmts| && a != b && x in DefinedBy(stmts[b]) ::
      Define(x) !in StmtVisit(stmts[a])
  }

  lemma ClearIsSeen(stmts: seq<Stmt>)
    requires Clear(stmts)
    ensures Seen(stmts)
  {
    forall a, b | 0 <= a < |stmts| && 0 <= b < |stmts| && a != b
      ensures StmtUses(stmts[a]) * DefinedBy(stmts[b]) <= Analyze(stmts[a]).free
    {
      forall x <- StmtUses(stmts[a]) * DefinedBy(stmts[b]) ensures x in Analyze(stmts[a]).free {
        UnboundUseIsFree(stmts[a], x);
      }
    }
  }

  /** `DEF a AS 1` and `DEF b AS a`. */
  const InTurn: seq<Stmt> :=
    [DefStmt(IdentPtrn("a"), ConstExpr(Int(1))), DefStmt(IdentPtrn("b"), IdentExpr("a"))]

  lemma SortedInTurn()
    ensures Simple(InTurn) && Clear(InTurn) && SortOrder(Analyses(InTurn)) == Some([0, 1])
    ensures SortedStmts(InTurn) == InTurn && StmtScoped(map[], {}, Unflatten(InTurn))
  {
    InTurnAnalyzed();
    TwoInTurn(Analyses(InTurn), "a");
    InTurnClear();
    InTurnScoped();
    assert SortedStmts(InTurn) == InTurn;
  }

  lemma InTurnAnalyzed()
    ensures Analyses(InTurn) == [Analysis({"a"}, {}), Analysis({"b"}, {"a"})]
  {
    var analyses := Analyses(InTurn);
    assert PtrnFree(IdentPtrn("b"), {}) == {} && ExprFree(IdentExpr("a"), {"b"}) == {"a"};
    assert analyses[0] == Analysis({"a"}, {}) && analyses[1] == Analysis({"b"}, {"a"});
  }

  lemma InTurnClear()
    ensures Simple(InTurn) && Clear(InTurn)
  {
    assert DefinedBy(InTurn[0]) == {"a"} && DefinedBy(InTurn[1]) == {"b"};
    assert StmtVisit(InTurn[0]) == [Define("a")] && StmtVisit(InTurn[1]) == [Define("b"), Use("a")];
  }

  lemma InTurnScoped()
    ensures StmtScoped(map[], {}, Unflatten(InTurn))
  {
    assert InTurn[..0] == [] && InTurn[..1] == [InTurn[0]] && DefinedIn([InTurn[0]]) == {"a"};
    UnflattenScoped(map[], {}, InTurn);
    assert StmtUses(InTurn[0]) == {} && StmtUses(InTurn[1]) == {"a"};
    assert ScopedAt(map[], {}, InTurn, 0) && ScopedAt(map[], {}, InTurn, 1);
  }

  /** Two statements of which the second uses what the first defines can be sorted in one order only. */
  lemma TwoInTurn(analyses: seq<Analysis>, x: string)
    requires |analyses| == 2 && x in analyses[0].define && x in analyses[1].free
    requires analyses[1].define * analyses[0].free == {}
    ensures SortOrder(analyses) == Some([0, 1])
  {
    assert x in analyses[0].define * analyses[1].free;
    assert Dependencies(analyses, 0) == {} && Dependencies(analyses, 1) == {0};
    assert [0, 1][..1] == [0];
    assert Topological(analyses, [0, 1]);
    OrderedHasNoCycle(analyses, [0, 1]);
    OnlyOrder(analyses, SortOrder(analyses).value);
  }

  lemma OnlyOrder(analyses: seq<Analysis>, order: seq<nat>)
    requires |analyses| == 2 && Dependencies(analyses, 1) == {0} && Topological(analyses, order)
    ensures order == [0, 1]
  {
    assert 0 in order && 1 in order;
    forall k | 0 <= k < |order| ensures order[k] <= 1 {
      assert order[k] in order;
    }
    if |order| > 2 { ThreeNumbers(order); }
    var i :| 0 <= i < |order| && order[i] == 1;
    assert 0 in order[..i];
  }

  lemma ThreeNumbers(order: seq<nat>)
    requires HumusSort.Distinct(order) && |order| > 2
    ensures exists k :: 0 <= k < |order| && order[k] > 1
  {
    assert order[0] > 1 || order[1] > 1 || order[2] > 1;
  }

  /**
   Sorting does not see what an equation uses if the equation has bound a name like it before: `DEF c AS 1` and
   `DEF d AS IF c = $c TRUE ELSE FALSE` are sorted the other way round, and are then refused.
   */
  const Hiding: seq<Stmt> :=
    [DefStmt(IdentPtrn("c"), ConstExpr(Int(1))),
     DefStmt(IdentPtrn("d"),
             IfExpr(IdentPtrn("c"), ValuePtrn(IdentExpr("c")), ConstExpr(True), ConstExpr(HumusSyntax.False)))]

  lemma HiddenUse()
    ensures Simple(Hiding) && !Seen(Hiding) && SortOrder(Analyses(Hiding)) == Some([1, 0])
    ensures StmtScoped(map[], {}, Unflatten(Hiding))
    ensures Simple(SortedStmts(Hiding)) && !StmtScoped(map[], {}, Unflatten(SortedStmts(Hiding)))
  {
    HidingAnalyzed();
    HidingUses();
    LastFirst(Analyses(Hiding));
    HidingScopes();
    assert SortedStmts(Hiding) == [Hiding[1], Hiding[0]];
    assert "c" in StmtUses(Hiding[1]) * DefinedBy(Hiding[0]);
  }

  /** The same two statements the other way round are sorted into the order in which they are in scope. */
  lemma HiddenUseByChance()
    ensures var stmts := [Hiding[1], Hiding[0]];
            && Simple(stmts) && !Seen(stmts) && SortOrder(Analyses(stmts)) == Some([1, 0])
            && SortedStmts(stmts) == Hiding && StmtScoped(map[], {}, Unflatten(Hiding))
  {
    var stmts := [Hiding[1], Hiding[0]];
    FlippedSorts(stmts);
    FlippedUnseen(stmts);
    HidingScopes();
    assert SortedStmts(stmts) == [stmts[1], stmts[0]] == Hiding;
  }

  lemma FlippedSorts(stmts: seq<Stmt>)
    requires stmts == [Hiding[1], Hiding[0]]
    ensures SortOrder(Analyses(stmts)) == Some([1, 0])
  {
    HidingAnalyzed();
    assert Analyses(stmts) == [Analysis({"d"}, {}), Analysis({"c"}, {})];
    Unrelated(Analyses(stmts), {"d"}, {"c"});
    LastFirst(Analyses(stmts));
  }

  lemma FlippedUnseen(stmts: seq<Stmt>)
    requires stmts == [Hiding[1], Hiding[0]]
    ensures !Seen(stmts)
  {
    HidingAnalyzed();
    HidingUses();
    assert "c" in StmtUses(stmts[0]) * DefinedBy(stmts[1]);
  }

  lemma Unrelated(analyses: seq<Analysis>, x: set<string>, y: set<string>)
    requires analyses == [Analysis(x, {}), Analysis(y, {})]
    ensures AllDependencies(analyses) == NoneLeft
  {
    assert Dependencies(analyses, 0) == {} && Dependencies(analyses, 1) == {};
    assert AllDependencies(analyses) == [Dependencies(analyses, 0), Dependencies(analyses, 1)];
  }

  lemma HidingScopes()
    ensures StmtScoped(map[], {}, Unflatten(Hiding)) && !StmtScoped(map[], {}, Unflatten([Hiding[1], Hiding[0]]))
  {
    HidingUses();
    var flipped := [Hiding[1], Hiding[0]];
    assert Hiding[..0] == [] && Hiding[..1] == [Hiding[0]] && flipped[..0] == [] && DefinedIn([Hiding[0]]) == {"c"};
    UnflattenScoped(map[], {}, Hiding);
    UnflattenScoped(map[], {}, flipped);
    assert ScopedAt(map[], {}, Hiding, 0) && ScopedAt(map[], {}, Hiding, 1) && !ScopedAt(map[], {}, flipped, 0);
  }

  const NoneLeft: seq<set<nat>> := [{}, {}]

  /** Of two statements that do not wait for each other, the last is sorted first. */
  lemma LastFirst(analyses: seq<Analysis>)
    requires |analyses| == 2 && AllDependencies(analyses) == NoneLeft
    ensures SortOrder(analyses) == Some([1, 0])
  {
    BothIndependent();
    SortingStarts(analyses);
    OneRound(analyses, [], [0, 1], 1, [0], [1]);
    OneRound(analyses, [1], [0], 0, [], [1, 0]);
  }

  lemma BothIndependent()
    ensures Independents(NoneLeft) == [0, 1]
  {
    assert NoneLeft[..1] == [{}] && NoneLeft[..1][..0] == [];
    assert Independents(NoneLeft[..1]) == [0];
  }

  lemma OneRound(analyses: seq<Analysis>, sorted: seq<nat>, queue: seq<nat>, a: nat, rest: seq<nat>, sorted1: seq<nat>)
    requires |analyses| == 2 && Sorting(analyses, NoneLeft, sorted, queue)
    requires queue == rest + [a] && sorted1 == sorted + [a]
    ensures Sorting(analyses, NoneLeft, sorted1, rest)
    ensures Rounds(analyses, NoneLeft, sorted, queue) == Rounds(analyses, NoneLeft, sorted1, rest)
  {
    assert queue[..|queue| - 1] == rest;
    RoundStarts(analyses, NoneLeft, sorted, queue);
    VisitedAll(analyses, NoneLeft, sorted, a, rest, 0);
    NothingVisited(a, rest);
    RoundEnds(analyses, NoneLeft, sorted, a, rest);
  }

  lemma NothingVisited(a: nat, queue: seq<nat>)
    ensures Visited(NoneLeft, a, queue, 0) == (NoneLeft, queue)
  {
    assert NoneLeft[0 := {}] == NoneLeft && NoneLeft[1 := {}] == NoneLeft;
    assert Visited(NoneLeft, a, queue, 2) == (NoneLeft, queue);
    assert Visited(NoneLeft, a, queue, 1) == Visited(NoneLeft, a, queue, 2);
  }

  lemma HidingAnalyzed()
    ensures Analyses(Hiding) == [Analysis({"c"}, {}), Analysis({"d"}, {})]
    ensures Analyze(Hiding[0]) == Analysis({"c"}, {}) && Analyze(Hiding[1]) == Analysis({"d"}, {})
    ensures AllDependencies(Analyses(Hiding)) == NoneLeft
  {
    assert ExprFree(Hiding[1].expr, {"d"}) == {};
    var a := Analyses(Hiding);
    assert a[0] == Analysis({"c"}, {}) && a[1] == Analysis({"d"}, {});
    Unrelated(a, {"c"}, {"d"});
  }

  lemma HidingUses()
    ensures StmtUses(Hiding[0]) == {} && StmtUses(Hiding[1]) == {"c"} && StmtSound(Hiding[0]) && StmtSound(Hiding[1])
    ensures DefinedBy(Hiding[0]) == {"c"}
  {
    assert Solve(IdentPtrn("c"), ValuePtrn(IdentExpr("c"))) == Some((IdentPtrn("c"), IdentExpr("c")));
  }

  // ----- Repeated definitions -----

  predicate DefinedOnce(stmts: seq<Stmt>) {
    forall a, b :: 0 <= a < |stmts| && 0 <= b < |stmts| && a != b ==> DefinedBy(stmts[a]) !! DefinedBy(stmts[b])
  }

  /** No pattern that is defined has an expression that binds names of its own. */
  predicate Plain(stmts: seq<Stmt>) {
    forall s <- stmts :: DefIdents(s) == DefinedBy(s)
  }

  predicate HasValues(p: Ptrn) {
    match p
    case PairPtrn(h, t) => HasValues(h) || HasValues(t)
    case ValuePtrn(_) => true
    case _ => false
  }

  /** A definition names what a visit of its pattern defines; without expressions in the pattern it is plain. */
  lemma DefinitionNames(p: Ptrn, e: Expr)
    ensures forall x :: x in DefIdents(DefStmt(p, e)) <==> Define(x) in PtrnVisit(p)
    ensures !HasValues(p) ==> Plain([DefStmt(p, e)])
  {
    RepeatsAreTheVisit(p);
    if !HasValues(p) { VariablesAreNames(p); }
  }

  lemma {:induction false} VariablesAreNames(p: Ptrn)
    requires !HasValues(p)
    ensures forall x :: x in PtrnIdents(p) <==> x in Names(p)
  {
    if p.PairPtrn? {
      VariablesAreNames(p.head);
      VariablesAreNames(p.tail);
    }
  }

  /** Definitions are repeated or not in whatever order they come. */
  lemma FreshInAnyOrder(stmts: seq<Stmt>, order: seq<nat>)
    requires Permutes(stmts, order) && Plain(stmts)
    ensures FreshBlock(EmptyScope, Arrange(stmts, order)) <==> DefinedOnce(stmts)
  {
    var arranged := Arrange(stmts, order);
    FreshByPlace(EmptyScope, arranged);
    forall i | 0 <= i < |order|
      ensures FreshAt(EmptyScope, arranged, i) <==> LaterApart(arranged, i)
    {
      FreshOne(stmts, order, i);
    }
    ArrangedOnce(stmts, order);
  }

  /** The statement defines nothing that one before it does. */
  predicate LaterApart(stmts: seq<Stmt>, i: nat)
    requires i < |stmts|
  {
    forall j :: 0 <= j < i ==> DefinedBy(stmts[i]) !! DefinedBy(stmts[j])
  }

  lemma ArrangedOnce(stmts: seq<Stmt>, order: seq<nat>)
    requires Permutes(stmts, order)
    ensures (forall i :: 0 <= i < |order| ==> LaterApart(Arrange(stmts, order), i)) <==> DefinedOnce(stmts)
  {
    var arranged := Arrange(stmts, order);
    if DefinedOnce(stmts) {
      forall i, j | 0 <= j < i < |order| ensures DefinedBy(arranged[i]) !! DefinedBy(arranged[j]) {
        assert order[i] in order && order[j] in order && order[j] != order[i];
      }
    }
    if forall i :: 0 <= i < |order| ==> LaterApart(arranged, i) {
      forall a, b | 0 <= a < |stmts| && 0 <= b < |stmts| && a != b ensures DefinedBy(stmts[a]) !! DefinedBy(stmts[b]) {
        assert a in order && b in order;
        var i :| 0 <= i < |order| && order[i] == a;
        var j :| 0 <= j < |order| && order[j] == b;
        assert arranged[i] == stmts[a] && arranged[j] == stmts[b];
        assert LaterApart(arranged, if j < i then i else j);
      }
    }
  }

  lemma FreshOne(stmts: seq<Stmt>, order: seq<nat>, i: nat)
    requires Permutes(stmts, order) && Plain(stmts) && i < |order|
    ensures FreshAt(EmptyScope, Arrange(stmts, order), i) <==> LaterApart(Arrange(stmts, order), i)
  {
    var arranged := Arrange(stmts, order);
    assert order[i] in order && stmts[order[i]] in stmts;
    assert NamesIn(EmptyScope) == {};
    if !FreshAt(EmptyScope, arranged, i) {
      var x :| x in DefinedBy(arranged[i]) && x in DefinedIn(arranged[..i]);
      DefinedWhere(arranged[..i], x);
      var j :| 0 <= j < i && x in DefinedBy(arranged[..i][j]);
      assert x in DefinedBy(arranged[j]);
    }
    if j :| 0 <= j < i && !(DefinedBy(arranged[i]) !! DefinedBy(arranged[j])) {
      var x :| x in DefinedBy(arranged[i]) && x in DefinedBy(arranged[j]);
      assert x in DefinedBy(arranged[..i][j]);
      DefinedWhere(arranged[..i], x);
    }
  }
}
