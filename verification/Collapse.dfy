/**
 Marking the live statements of a module: those that are exported or impure, those
 that define what these refer to, and so on.
 */
module Collapse {
  datatype Statement = Statement(define: set<string>, free: set<string>, root: bool)

  /** The first statement refers to something the other one defines. */
  predicate Needs(stmts: seq<Statement>, a: nat, b: nat) {
    a < |stmts| && b < |stmts| && a != b && !(stmts[a].free !! stmts[b].define)
  }

  predicate RootedPath(stmts: seq<Statement>, path: seq<nat>) {
    && path != []
    && path[0] < |stmts| && stmts[path[0]].root
    && forall i :: 0 <= i < |path| - 1 ==> Needs(stmts, path[i], path[i + 1])
  }

  ghost predicate Live(stmts: seq<Statement>, nr: nat) {
    exists path :: RootedPath(stmts, path) && path[|path| - 1] == nr
  }

  lemma LiveRoot(stmts: seq<Statement>, nr: nat)
    requires nr < |stmts| && stmts[nr].root
    ensures Live(stmts, nr)
  {
    assert RootedPath(stmts, [nr]);
  }

  lemma LiveStep(stmts: seq<Statement>, a: nat, b: nat)
    requires Live(stmts, a) && Needs(stmts, a, b)
    ensures Live(stmts, b)
  {
    var path :| RootedPath(stmts, path) && path[|path| - 1] == a;
    assert RootedPath(stmts, path + [b]);
  }

  /** A set that holds the roots and is closed under need holds everything live. */
  lemma {:induction false} LiveIsLeast(stmts: seq<Statement>, s: set<nat>, path: seq<nat>)
    requires forall i: nat :: i < |stmts| && stmts[i].root ==> i in s
    requires forall a, b :: a in s && Needs(stmts, a, b) ==> b in s
    requires RootedPath(stmts, path)
    ensures path[|path| - 1] in s
    decreases |path|
  {
    if |path| > 1 {
      var front := path[..|path| - 1];
      LiveIsLeast(stmts, s, front);
      assert Needs(stmts, front[|front| - 1], path[|path| - 1]);
    }
  }

  /** How many entries of the queue are rooted already. */
  function RootedEntries(rooted: seq<bool>, marked: seq<nat>): nat {
    if marked == [] then 0
    else (if marked[0] < |rooted| && rooted[marked[0]] then 1 else 0) + RootedEntries(rooted, marked[1..])
  }

  lemma {:induction false} RootedEntriesAppend(rooted: seq<bool>, marked: seq<nat>, nr: nat)
    requires nr < |rooted| && !rooted[nr]
    ensures RootedEntries(rooted, marked + [nr]) == RootedEntries(rooted, marked)
  {
    if marked == [] {
      assert (marked + [nr])[1..] == [];
    } else {
      assert (marked + [nr])[1..] == marked[1..] + [nr];
      RootedEntriesAppend(rooted, marked[1..], nr);
    }
  }

  function Unrooted(rooted: seq<bool>): set<nat> { set i: nat | i < |rooted| && !rooted[i] }

  /** Every statement that a rooted one needs is rooted or queued. */
  predicate Pursued(stmts: seq<Statement>, rooted: seq<bool>, marked: seq<nat>)
    requires |rooted| == |stmts|
  {
    forall a: nat, b: nat | a < |stmts| && b < |stmts| && rooted[a] && Needs(stmts, a, b) :: rooted[b] || b in marked
  }

  lemma NothingLiveIsMissed(stmts: seq<Statement>, rooted: seq<bool>)
    requires |rooted| == |stmts| && Pursued(stmts, rooted, [])
    requires forall i :: 0 <= i < |stmts| && stmts[i].root ==> rooted[i]
    ensures forall i :: 0 <= i < |stmts| && Live(stmts, i) ==> rooted[i]
  {
    var s := set i: nat | i < |stmts| && rooted[i];
    forall i | 0 <= i < |stmts| && Live(stmts, i) ensures rooted[i] {
      var path :| RootedPath(stmts, path) && path[|path| - 1] == i;
      LiveIsLeast(stmts, s, path);
    }
  }

  lemma PursuedStep(stmts: seq<Statement>, before: seq<bool>, queue: seq<nat>, nr: nat, marked: seq<nat>)
    requires |before| == |stmts| && nr < |stmts| && Pursued(stmts, before, queue)
    requires forall m <- queue :: m == nr || m in marked
    requires forall b: nat | b < |stmts| && Needs(stmts, nr, b) :: before[nr := true][b] || b in marked
    ensures Pursued(stmts, before[nr := true], marked)
  {
  }

  /** Some name that is free in a statement is defined by another one. */
  predicate Refers(a: Statement, b: Statement) { exists x :: x in a.free && x in b.define }

  /** Queues whatever the marked statement needs and is not rooted yet. */
  method QueueNeeds(stmts: seq<Statement>, rooted: array<bool>, markedNr: nat, marked0: seq<nat>)
    returns (marked: seq<nat>)
    requires rooted.Length == |stmts| && markedNr < |stmts| && Live(stmts, markedNr)
    requires forall m <- marked0 :: m < |stmts| && Live(stmts, m)
    ensures forall b: nat :: b in marked <==>
              b in marked0 || (b < |stmts| && b != markedNr && !rooted[b] && Refers(stmts[markedNr], stmts[b]))
    ensures forall m <- marked :: m < |stmts| && Live(stmts, m)
    ensures forall b: nat | b < |stmts| && Needs(stmts, markedNr, b) :: rooted[b] || b in marked
    ensures RootedEntries(rooted[..], marked) == RootedEntries(rooted[..], marked0)
  {
    marked := marked0;
    var otherNr := 0;
    while otherNr < |stmts|
      invariant 0 <= otherNr <= |stmts|
      invariant forall m <- marked :: m < |stmts| && Live(stmts, m)
      invariant forall b: nat :: b in marked <==>
                  b in marked0 || (b < otherNr && b != markedNr && !rooted[b] && Refers(stmts[markedNr], stmts[b]))
      invariant RootedEntries(rooted[..], marked) == RootedEntries(rooted[..], marked0)
    {
      if otherNr != markedNr && !(stmts[markedNr].free !! stmts[otherNr].define) && !rooted[otherNr] {
        LiveStep(stmts, markedNr, otherNr);
        RootedEntriesAppend(rooted[..], marked, otherNr);
        marked := marked + [otherNr];
      }
      otherNr := otherNr + 1;
    }
  }

  /** The state between two rounds: only live statements are rooted or queued, and nothing that is needed is lost. */
  ghost predicate Marking(stmts: seq<Statement>, rooted: seq<bool>, marked: seq<nat>) {
    && |rooted| == |stmts|
    && (forall m <- marked :: m < |stmts| && Live(stmts, m))
    && (forall i :: 0 <= i < |stmts| && rooted[i] ==> Live(stmts, i))
    && (forall i :: 0 <= i < |stmts| && stmts[i].root ==> rooted[i] || i in marked)
    && Pursued(stmts, rooted, marked)
  }

  lemma MarkingStep(stmts: seq<Statement>, before: seq<bool>, queue: seq<nat>, marked: seq<nat>)
    requires queue != [] && queue[0] < |before| && Marking(stmts, before, queue)
    requires var nr, after := queue[0], before[queue[0] := true];
             && (forall m <- marked :: m < |stmts| && Live(stmts, m))
             && (forall m <- queue[1..] :: m in marked)
             && (forall b: nat | b < |stmts| && Needs(stmts, nr, b) :: after[b] || b in marked)
             && RootedEntries(after, marked) == RootedEntries(after, queue[1..])
    ensures var after := before[queue[0] := true];
            && Marking(stmts, after, marked)
            && (Unrooted(after) < Unrooted(before)
                || (after == before && RootedEntries(after, marked) < RootedEntries(before, queue)))
  {
    var nr := queue[0];
    var after := before[nr := true];
    var rest := queue[1..];
    assert nr in queue && forall m <- queue :: m == nr || m in rest;
    PursuedStep(stmts, before, queue, nr, marked);
    if before[nr] {
      assert after == before;
    } else {
      assert nr in Unrooted(before) && nr !in Unrooted(after);
    }
  }

  /** A statement may be queued several times, yet marking ends, with exactly the live statements rooted. */
  method Mark(stmts: seq<Statement>) returns (rooted: array<bool>)
    ensures fresh(rooted) && rooted.Length == |stmts|
    ensures forall i :: 0 <= i < |stmts| ==> (rooted[i] <==> Live(stmts, i))
  {
    var n := |stmts|;
    rooted := new bool[n](_ => false);
    var marked: seq<nat> := [];
    for nr := 0 to n
      invariant forall i :: 0 <= i < n ==> !rooted[i]
      invariant forall m <- marked :: m < n && Live(stmts, m)
      invariant forall i :: 0 <= i < nr && stmts[i].root ==> i in marked
    {
      if stmts[nr].root {
        LiveRoot(stmts, nr);
        marked := marked + [nr];
      }
    }
    while |marked| > 0
      invariant Marking(stmts, rooted[..], marked)
      decreases Unrooted(rooted[..]), RootedEntries(rooted[..], marked)
    {
      ghost var before, queue := rooted[..], marked;
      var markedNr := marked[0];
      assert markedNr in marked;
      marked := marked[1..];
      assert forall m <- marked :: m in queue;
      rooted[markedNr] := true;
      assert rooted[..] == before[markedNr := true];
      marked := QueueNeeds(stmts, rooted, markedNr, marked);
      MarkingStep(stmts, before, queue, marked);
    }
    NothingLiveIsMissed(stmts, rooted[..]);
  }
}
