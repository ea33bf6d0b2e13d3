/**
 Sorting the statements of a block so that none refers forward, by Kahn's algorithm.
 A statement is given by the identifiers it defines and those it leaves free.
 */
module HumusSort {
  import opened Prelude

  datatype Analysis = Analysis(define: set<string>, free: set<string>)

  /** Statement a refers to an identifier that another statement b defines. */
  predicate DependsOn(stmts: seq<Analysis>, a: nat, b: nat) {
    a < |stmts| && b < |stmts| && a != b && stmts[b].define * stmts[a].free != {}
  }

  function Dependencies(stmts: seq<Analysis>, a: nat): set<nat> {
    set b | 0 <= b < |stmts| && DependsOn(stmts, a, b)
  }

  predicate Distinct(s: seq<nat>) {
    forall i, j :: 0 <= i < j < |s| ==> s[i] != s[j]
  }

  /** A permutation of the statement numbers in which everything comes after what it depends on. */
  ghost predicate Topological(stmts: seq<Analysis>, order: seq<nat>) {
    && Distinct(order)
    && (forall b :: 0 <= b < |stmts| <==> b in order)
    && Backward(stmts, order)
  }

  predicate Backward(stmts: seq<Analysis>, order: seq<nat>) {
    forall i :: 0 <= i < |order| ==> forall b <- Dependencies(stmts, order[i]) :: b in order[..i]
  }

  predicate Chain(stmts: seq<Analysis>, path: seq<nat>) {
    forall i :: 0 <= i < |path| - 1 ==> DependsOn(stmts, path[i], path[i + 1])
  }

  ghost predicate Cyclic(stmts: seq<Analysis>) {
    exists path: seq<nat> :: |path| >= 2 && path[0] == path[|path| - 1] && Chain(stmts, path)
  }

  /**
   The state between two rounds: dependencies on sorted statements are gone, and
   the statements without dependencies are those sorted or queued.
   */
  predicate Sorting(stmts: seq<Analysis>, dependencies: seq<set<nat>>, sorted: seq<nat>, independents: seq<nat>) {
    && |dependencies| == |stmts|
    && Distinct(sorted + independents)
    && (forall b <- sorted + independents :: b < |stmts|)
    && (forall b :: 0 <= b < |stmts| ==> dependencies[b] == Dependencies(stmts, b) - Members(sorted))
    && (forall b :: 0 <= b < |stmts| ==> (dependencies[b] == {} <==> b in sorted + independents))
    && Backward(stmts, sorted)
  }

  /** A round that has visited the first statements only. */
  predicate Visiting(stmts: seq<Analysis>, dependencies: seq<set<nat>>, sorted: seq<nat>, a: nat, queue: seq<nat>,
                     upTo: nat) {
    && |dependencies| == |stmts|
    && Distinct(sorted + [a] + queue)
    && (forall b <- sorted + [a] + queue :: b < |stmts|)
    && (forall b :: 0 <= b < |stmts| ==>
          dependencies[b] == Dependencies(stmts, b) - Members(if b < upTo then sorted + [a] else sorted))
    && (forall b :: 0 <= b < |stmts| ==> (dependencies[b] == {} <==> b in sorted + [a] + queue))
  }

  // ----- The order that is found -----

  /** What a round does from statement b on: a is no longer a dependency, and who is left with none joins the queue. */
  function Visited(dependencies: seq<set<nat>>, a: nat, queue: seq<nat>, b: nat): (seq<set<nat>>, seq<nat>)
    requires b <= |dependencies|
    decreases |dependencies| - b
  {
    if b == |dependencies| then (dependencies, queue)
    else
      var left := if a in dependencies[b] then dependencies[b] - {a} else dependencies[b];
      Visited(dependencies[b := left], a, if a in dependencies[b] && left == {} then queue + [b] else queue, b + 1)
  }

  lemma {:induction false} VisitedAll(stmts: seq<Analysis>, dependencies: seq<set<nat>>, sorted: seq<nat>, a: nat,
                                      queue: seq<nat>, b: nat)
    requires b <= |stmts| && Visiting(stmts, dependencies, sorted, a, queue, b)
    ensures var (dependencies1, queue1) := Visited(dependencies, a, queue, b);
            Visiting(stmts, dependencies1, sorted, a, queue1, |stmts|)
    decreases |stmts| - b
  {
    if b < |stmts| {
      VisitOne(stmts, dependencies, sorted, a, queue, b);
      var left := if a in dependencies[b] then dependencies[b] - {a} else dependencies[b];
      VisitedAll(stmts, dependencies[b := left], sorted, a,
                 if a in dependencies[b] && left == {} then queue + [b] else queue, b + 1);
    }
  }

  /** The statements without dependencies, from the first on. */
  function Independents(dependencies: seq<set<nat>>): seq<nat> {
    if dependencies == [] then []
    else
      var last := |dependencies| - 1;
      Independents(dependencies[..last]) + if dependencies[last] == {} then [last] else []
  }

  lemma {:induction false} IndependentsAre(dependencies: seq<set<nat>>)
    ensures Distinct(Independents(dependencies))
    ensures forall b :: b in Independents(dependencies) <==> 0 <= b < |dependencies| && dependencies[b] == {}
  {
    if dependencies != [] {
      var front, last := dependencies[..|dependencies| - 1], |dependencies| - 1;
      IndependentsAre(front);
      assert forall b :: 0 <= b < last ==> front[b] == dependencies[b];
      OneMore(Independents(front), last, dependencies[last] == {});
    }
  }

  lemma OneMore(s: seq<nat>, x: nat, more: bool)
    requires Distinct(s) && x !in s
    ensures var t := s + if more then [x] else [];
            Distinct(t) && forall b :: b in t <==> b in s || (more && b == x)
  {
  }

  /** The rounds to come: the last of the queue is sorted next. */
  function Rounds(stmts: seq<Analysis>, dependencies: seq<set<nat>>, sorted: seq<nat>, queue: seq<nat>)
    : (r: (seq<set<nat>>, seq<nat>))
    requires Sorting(stmts, dependencies, sorted, queue)
    ensures Sorting(stmts, r.0, r.1, [])
    decreases Unsorted(|stmts|, sorted)
  {
    if queue == [] then (dependencies, sorted)
    else
      var a, rest := queue[|queue| - 1], queue[..|queue| - 1];
      RoundStarts(stmts, dependencies, sorted, queue);
      VisitedAll(stmts, dependencies, sorted, a, rest, 0);
      var (dependencies1, queue1) := Visited(dependencies, a, rest, 0);
      RoundEnds(stmts, dependencies1, sorted, a, queue1);
      Rounds(stmts, dependencies1, sorted + [a], queue1)
  }

  function AllDependencies(stmts: seq<Analysis>): seq<set<nat>> {
    seq(|stmts|, i requires 0 <= i < |stmts| => Dependencies(stmts, i))
  }

  lemma SortingStarts(stmts: seq<Analysis>)
    ensures Sorting(stmts, AllDependencies(stmts), [], Independents(AllDependencies(stmts)))
  {
    IndependentsAre(AllDependencies(stmts));
    var queue := Independents(AllDependencies(stmts));
    assert [] + queue == queue;
  }

  /** The order of the statements; None if some wait for each other. */
  function SortOrder(stmts: seq<Analysis>): (r: Option<seq<nat>>)
    ensures r.Some? ==> Topological(stmts, r.value)
    ensures r.None? <==> Cyclic(stmts)
  {
    SortingStarts(stmts);
    var (dependencies, sorted) := Rounds(stmts, AllDependencies(stmts), [], Independents(AllDependencies(stmts)));
    SortingEnds(stmts, dependencies, sorted);
    if forall b :: 0 <= b < |stmts| ==> dependencies[b] == {} then Some(sorted) else None
  }

  lemma SortingEnds(stmts: seq<Analysis>, dependencies: seq<set<nat>>, sorted: seq<nat>)
    requires Sorting(stmts, dependencies, sorted, [])
    ensures if forall b :: 0 <= b < |stmts| ==> dependencies[b] == {} then Topological(stmts, sorted) && !Cyclic(stmts)
            else Cyclic(stmts)
  {
    assert sorted + [] == sorted;
    if b :| 0 <= b < |stmts| && dependencies[b] != {} {
      Unfinished(stmts, dependencies, sorted, b);
    } else {
      OrderedHasNoCycle(stmts, sorted);
    }
  }

  method SortStmts(stmts: seq<Analysis>) returns (r: Option<seq<nat>>)
    ensures r == SortOrder(stmts)
    ensures r.Some? ==> Topological(stmts, r.value)
    ensures r.None? <==> Cyclic(stmts)
  {
    var n := |stmts|;
    var dependencies := new set<nat>[n](i => Dependencies(stmts, i));
    assert dependencies[..] == AllDependencies(stmts);
    var independents := FindIndependents(dependencies[..]);
    var sorted: seq<nat> := [];
    SortingStarts(stmts);
    ghost var result := Rounds(stmts, dependencies[..], [], independents);
    while |independents| > 0
      invariant Sorting(stmts, dependencies[..], sorted, independents)
      invariant Rounds(stmts, dependencies[..], sorted, independents) == result
      decreases Unsorted(n, sorted)
    {
      var a := independents[|independents| - 1];
      RoundStarts(stmts, dependencies[..], sorted, independents);
      VisitedAll(stmts, dependencies[..], sorted, a, independents[..|independents| - 1], 0);
      independents := independents[..|independents| - 1];
      independents := Visit(dependencies, a, independents);
      RoundEnds(stmts, dependencies[..], sorted, a, independents);
      sorted := sorted + [a];
    }
    assert result == (dependencies[..], sorted);
    if forall b :: 0 <= b < n ==> dependencies[b] == {} {
      r := Some(sorted);
    } else {
      r := None;
    }
  }

  method FindIndependents(dependencies: seq<set<nat>>) returns (independents: seq<nat>)
    ensures independents == Independents(dependencies)
  {
    independents := [];
    for i := 0 to |dependencies|
      invariant independents == Independents(dependencies[..i])
    {
      assert dependencies[..i + 1][..i] == dependencies[..i];
      if dependencies[i] == {} { independents := independents + [i]; }
    }
    assert dependencies[..|dependencies|] == dependencies;
  }

  /** A round of the loop: a is no longer a dependency of any statement. */
  method Visit(dependencies: array<set<nat>>, a: nat, queue: seq<nat>) returns (independents: seq<nat>)
    modifies dependencies
    ensures (dependencies[..], independents) == Visited(old(dependencies[..]), a, queue, 0)
  {
    independents := queue;
    var bNr := 0;
    while bNr < dependencies.Length
      invariant 0 <= bNr <= dependencies.Length
      invariant Visited(dependencies[..], a, independents, bNr) == Visited(old(dependencies[..]), a, queue, 0)
    {
      ghost var before := dependencies[..];
      if a in dependencies[bNr] {
        dependencies[bNr] := dependencies[bNr] - {a};
        if dependencies[bNr] == {} {
          independents := independents + [bNr];
        }
      }
      assert dependencies[..] == before[bNr := if a in before[bNr] then before[bNr] - {a} else before[bNr]];
      bNr := bNr + 1;
    }
  }

  lemma RoundStarts(stmts: seq<Analysis>, dependencies: seq<set<nat>>, sorted: seq<nat>, independents: seq<nat>)
    requires |independents| > 0 && Sorting(stmts, dependencies, sorted, independents)
    ensures var a := independents[|independents| - 1];
            && a < |stmts| && Backward(stmts, sorted + [a])
            && a in Unsorted(|stmts|, sorted) && a !in Unsorted(|stmts|, sorted + [a])
            && Visiting(stmts, dependencies, sorted, a, independents[..|independents| - 1], 0)
  {
    var a := independents[|independents| - 1];
    MoveLast(sorted, independents);
    assert dependencies[a] == {};
    forall d <- Dependencies(stmts, a) ensures d in Members(sorted) {
      assert d in dependencies[a] || d in Members(sorted);
    }
    AppendBackward(stmts, sorted, a);
    var queue := independents[..|independents| - 1];
    forall b | 0 <= b < |stmts| ensures dependencies[b] == {} <==> b in sorted + [a] + queue {
      assert b in sorted + independents <==> b in sorted + [a] + queue;
    }
    assert forall b <- sorted + [a] + queue :: b in sorted + independents;
  }

  lemma VisitOne(stmts: seq<Analysis>, dependencies: seq<set<nat>>, sorted: seq<nat>, a: nat, queue: seq<nat>, b: nat)
    requires Visiting(stmts, dependencies, sorted, a, queue, b) && b < |stmts|
    ensures var left := if a in dependencies[b] then dependencies[b] - {a} else dependencies[b];
            var queue' := if a in dependencies[b] && left == {} then queue + [b] else queue;
            Visiting(stmts, dependencies[b := left], sorted, a, queue', b + 1)
  {
    var left := if a in dependencies[b] then dependencies[b] - {a} else dependencies[b];
    var queue' := if a in dependencies[b] && left == {} then queue + [b] else queue;
    assert Members(sorted + [a]) == Members(sorted) + {a};
    if a in dependencies[b] && left == {} {
      assert b !in sorted + [a] + queue;
      assert sorted + [a] + queue' == (sorted + [a] + queue) + [b];
    }
  }

  lemma RoundEnds(stmts: seq<Analysis>, dependencies: seq<set<nat>>, sorted: seq<nat>, a: nat, queue: seq<nat>)
    requires Visiting(stmts, dependencies, sorted, a, queue, |stmts|) && Backward(stmts, sorted + [a])
    ensures Sorting(stmts, dependencies, sorted + [a], queue)
  {
  }

  lemma Unfinished(stmts: seq<Analysis>, dependencies: seq<set<nat>>, sorted: seq<nat>, b: nat)
    requires Sorting(stmts, dependencies, sorted, []) && b < |stmts| && dependencies[b] != {}
    ensures Cyclic(stmts)
  {
    assert sorted + [] == sorted;
    var stuck := Unsorted(|stmts|, sorted);
    forall x: nat | x in stuck ensures HasNext(stmts, stuck, x) {
      var y :| y in dependencies[x];
      assert y in stuck && DependsOn(stmts, x, y);
    }
    StuckHasCycle(stmts, stuck, [b], stuck);
  }

  lemma MoveLast(s: seq<nat>, t: seq<nat>)
    requires |t| > 0 && Distinct(s + t)
    ensures var a := t[|t| - 1];
            && a !in s && a in s + t
            && Distinct(s + [a] + t[..|t| - 1])
            && forall b :: b in s + t <==> b in s + [a] + t[..|t| - 1]
  {
    var a, st := t[|t| - 1], s + t;
    var moved := s + [a] + t[..|t| - 1];
    assert a == st[|st| - 1];
    assert forall i :: 0 <= i < |s| ==> s[i] == st[i] && moved[i] == st[i];
    assert forall i :: |s| < i < |moved| ==> moved[i] == st[i - 1];
    assert t == t[..|t| - 1] + [a];
  }

  function Unsorted(n: nat, sorted: seq<nat>): set<nat> { set b | 0 <= b < n && b !in sorted }

  function Members(s: seq<nat>): set<nat> { set b | b in s }

  lemma AppendBackward(stmts: seq<Analysis>, sorted: seq<nat>, a: nat)
    requires Backward(stmts, sorted) && Dependencies(stmts, a) <= Members(sorted)
    ensures Backward(stmts, sorted + [a])
  {
    var order := sorted + [a];
    forall i | 0 <= i < |order| ensures forall b <- Dependencies(stmts, order[i]) :: b in order[..i] {
      assert i < |sorted| ==> order[..i] == sorted[..i];
      assert i == |sorted| ==> order[..i] == sorted;
    }
  }

  // ----- Orders exclude cycles -----

  /** Along a chain, positions in the order go down. */
  lemma {:induction false} ChainDescends(stmts: seq<Analysis>, order: seq<nat>, path: seq<nat>, k: nat)
    requires Topological(stmts, order) && Chain(stmts, path) && 0 < k < |path|
    ensures exists i, j :: 0 <= i < j < |order| && order[i] == path[k] && order[j] == path[0]
  {
    assert DependsOn(stmts, path[k - 1], path[k]) && DependsOn(stmts, path[0], path[1]);
    assert path[0] in order;
    if k == 1 {
      var j :| 0 <= j < |order| && order[j] == path[0];
      Earlier(stmts, order, j, path[1]);
    } else {
      ChainDescends(stmts, order, path, k - 1);
      var m, j :| 0 <= m < j < |order| && order[m] == path[k - 1] && order[j] == path[0];
      Earlier(stmts, order, m, path[k]);
    }
  }

  lemma Earlier(stmts: seq<Analysis>, order: seq<nat>, j: nat, b: nat)
    requires Topological(stmts, order) && j < |order| && DependsOn(stmts, order[j], b)
    ensures exists i :: 0 <= i < j && order[i] == b
  {
    assert b in Dependencies(stmts, order[j]);
    assert b in order[..j];
    var i :| 0 <= i < j && order[..j][i] == b;
    assert order[i] == b;
  }

  lemma OrderedHasNoCycle(stmts: seq<Analysis>, order: seq<nat>)
    requires Topological(stmts, order)
    ensures !Cyclic(stmts)
  {
    if path: seq<nat> :| |path| >= 2 && path[0] == path[|path| - 1] && Chain(stmts, path) {
      ChainDescends(stmts, order, path, |path| - 1);
    }
  }

  ghost predicate HasNext(stmts: seq<Analysis>, stuck: set<nat>, x: nat) {
    exists y <- stuck :: DependsOn(stmts, x, y)
  }

  lemma ClosesCycle(stmts: seq<Analysis>, path: seq<nat>, next: nat)
    requires path != [] && Chain(stmts, path + [next]) && next in path
    ensures Cyclic(stmts)
  {
    var longer := path + [next];
    var i :| 0 <= i < |path| && path[i] == next;
    var cycle := longer[i..];
    forall j | 0 <= j < |cycle| - 1 ensures DependsOn(stmts, cycle[j], cycle[j + 1]) {
      assert DependsOn(stmts, longer[i + j], longer[i + j + 1]);
    }
    assert cycle[0] == cycle[|cycle| - 1];
  }

  /** Walking along dependencies inside a finite set meets some statement again. */
  lemma {:induction false} StuckHasCycle(stmts: seq<Analysis>, stuck: set<nat>, path: seq<nat>, unvisited: set<nat>)
    requires forall x {:trigger HasNext(stmts, stuck, x)} :: x in stuck ==> HasNext(stmts, stuck, x)
    requires path != [] && Chain(stmts, path) && path[|path| - 1] in stuck
    requires forall x <- stuck :: x in path || x in unvisited
    ensures Cyclic(stmts)
    decreases unvisited
  {
    var last := path[|path| - 1];
    assert HasNext(stmts, stuck, last);
    var next :| next in stuck && DependsOn(stmts, last, next);
    ChainGrows(stmts, path, next);
    if next in path {
      ClosesCycle(stmts, path, next);
    } else {
      StuckHasCycle(stmts, stuck, path + [next], unvisited - {next});
    }
  }

  lemma ChainGrows(stmts: seq<Analysis>, path: seq<nat>, next: nat)
    requires path != [] && Chain(stmts, path) && DependsOn(stmts, path[|path| - 1], next)
    ensures Chain(stmts, path + [next])
  {
  }
}
