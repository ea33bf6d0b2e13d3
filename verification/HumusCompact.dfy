/**
 Closure conversion: the paths from which a smaller environment is rebuilt, holding
 only what is needed to resolve some identifiers.
 */
module HumusCompact {
  import opened Prelude
  import opened HumusPaths
  import opened HumusMachine
  import opened HumusEnv

  predicate IsTail(path: Path) { path == [] || path[0] < 0 }

  /** The paths of the identifiers that are in scope, in order. */
  function FoundPaths(t: Tree, idents: seq<string>): seq<Path> {
    if idents == [] then []
    else
      match Search(t, idents[0])
      case Some(path) => [path] + FoundPaths(t, idents[1..])
      case None => FoundPaths(t, idents[1..])
  }

  /** The tail path that contains all others, starting from a candidate. */
  function Outermost(paths: seq<Path>, best: Option<Path>): Option<Path>
    decreases |paths|
  {
    if paths == [] then best
    else
      var path := paths[0];
      Outermost(paths[1..],
                if IsTail(path) && (best.None? || PathContains(path, best.value, false)) then Some(path) else best)
  }

  /** The paths that are not inside the inherited one. */
  function Outside(paths: seq<Path>, inherited: Option<Path>): seq<Option<Path>>
    decreases |paths|
  {
    if paths == [] then []
    else
      (if inherited.None? || !PathContains(inherited.value, paths[0], false) then [Some(paths[0])] else [])
      + Outside(paths[1..], inherited)
  }

  function CompactPaths(t: Tree, idents: seq<string>): (r: seq<Option<Path>>)
    ensures |r| >= 1
  {
    var found := FoundPaths(t, idents);
    Outside(found, Outermost(found, None)) + [Outermost(found, None)]
  }

  method Compact(env: Tree, idents: seq<string>) returns (paths: seq<Option<Path>>)
    ensures paths == CompactPaths(env, idents)
  {
    var found := MapSearch(env, idents);
    var inherited: Option<Path> := None;
    for i := 0 to |found|
      invariant Outermost(found[i..], inherited) == Outermost(found, None)
    {
      assert found[i..][1..] == found[i + 1..];
      if IsTail(found[i]) && (inherited.None? || PathContains(found[i], inherited.value, false)) {
        inherited := Some(found[i]);
      }
    }
    paths := FilterOutside(found, inherited);
    paths := paths + [inherited];
  }

  method MapSearch(env: Tree, idents: seq<string>) returns (found: seq<Path>)
    ensures found == FoundPaths(env, idents)
  {
    found := [];
    for i := 0 to |idents|
      invariant found + FoundPaths(env, idents[i..]) == FoundPaths(env, idents)
    {
      var path := Search(env, idents[i]);
      assert idents[i..][1..] == idents[i + 1..];
      if path.Some? {
        Associates(found, [path.value], FoundPaths(env, idents[i + 1..]));
        found := found + [path.value];
      }
    }
    assert idents[|idents|..] == [];
  }

  method FilterOutside(found: seq<Path>, inherited: Option<Path>) returns (paths: seq<Option<Path>>)
    ensures paths == Outside(found, inherited)
  {
    paths := [];
    for i := 0 to |found|
      invariant paths + Outside(found[i..], inherited) == Outside(found, inherited)
    {
      assert found[i..][1..] == found[i + 1..];
      if inherited.None? || !PathContains(inherited.value, found[i], false) {
        Associates(paths, [Some(found[i])], Outside(found[i + 1..], inherited));
        paths := paths + [Some(found[i])];
      }
    }
    assert found[|found|..] == [];
  }

  // ----- The rebuilt environment, static and dynamic -----

  function NodeAt(t: Tree, path: Option<Path>): Tree {
    if path.Some? && Resolve(t, path.value).Some? then Resolve(t, path.value).value else Leaf(None, {})
  }

  function ValueAt(v: Value, path: Option<Path>): Value {
    if path.Some? then NthPath(v, path.value) else UndefV
  }

  function Rebuild(t: Tree, paths: seq<Option<Path>>): Tree
    requires paths != []
  {
    if |paths| == 1 then NodeAt(t, paths[0]) else Node(NodeAt(t, paths[0]), Rebuild(t, paths[1..]), {})
  }

  function RebuildValue(v: Value, paths: seq<Option<Path>>): Value
    requires paths != []
  {
    if |paths| == 1 then ValueAt(v, paths[0]) else PairV(ValueAt(v, paths[0]), RebuildValue(v, paths[1..]))
  }

  /** Closure environments are only found along the spine of tails. */
  predicate SpineMarked(t: Tree) {
    t.Node? ==> Unmarked(t.head) && SpineMarked(t.tail)
  }

  // ----- Steps on values -----

  function WalkValue(v: Value, steps: seq<Dir>): Value
    decreases |steps|
  {
    if steps == [] then v
    else WalkValue(match steps[0] case Stay => v case Head => HeadOf(v) case Tail => TailOf(v), steps[1..])
  }

  lemma {:induction false} WalkConcat(v: Value, a: seq<Dir>, b: seq<Dir>)
    ensures WalkValue(v, a + b) == WalkValue(WalkValue(v, a), b)
    decreases |a|
  {
    if a == [] {
      assert a + b == b;
    } else {
      assert (a + b)[1..] == a[1..] + b;
      WalkConcat(match a[0] case Stay => v case Head => HeadOf(v) case Tail => TailOf(v), a[1..], b);
    }
  }

  lemma {:induction false} NthWalks(v: Value, n: int)
    ensures NthOf(v, n) == WalkValue(v, ExpandEntry(n))
    decreases if n < 0 then -n else n
  {
    if -1 <= n <= 1 {
      assert NthOf(v, -1) == NthOf(TailOf(v), 0);
      assert ExpandEntry(n) == [if n == 0 then Stay else if n == 1 then Head else Tail];
      assert ExpandEntry(n)[1..] == [];
    } else {
      var m := if n > 0 then n - 1 else n + 1;
      EntrySplits(n);
      assert ExpandEntry(-1) == [Tail];
      assert ExpandEntry(n)[1..] == ExpandEntry(m);
      NthWalks(TailOf(v), m);
    }
  }

  lemma {:induction false} PathWalks(v: Value, path: Path)
    ensures NthPath(v, path) == WalkValue(v, Expand(path))
    decreases |path|
  {
    if path != [] {
      NthWalks(v, path[0]);
      WalkConcat(v, ExpandEntry(path[0]), Expand(path[1..]));
      PathWalks(NthOf(v, path[0]), path[1..]);
    }
  }

  // ----- Preorder -----

  lemma {:induction false} BeforeBothWays(a: seq<Dir>, b: seq<Dir>)
    requires Before(a, b) && Before(b, a)
    ensures a == b
  {
    if a != [] && b != [] {
      if a[0] == b[0] {
        BeforeBothWays(a[1..], b[1..]);
        assert a == [a[0]] + a[1..] && b == [b[0]] + b[1..];
      }
    }
  }

  lemma {:induction false} BeforeUnder(p: seq<Dir>, a: seq<Dir>, b: seq<Dir>)
    ensures Before(p + a, p + b) <==> Before(a, b)
  {
    if p == [] {
      assert p + a == a && p + b == b;
    } else {
      assert (p + a)[1..] == p[1..] + a && (p + b)[1..] == p[1..] + b;
      BeforeUnder(p[1..], a, b);
    }
  }

  /** A search below an inherited node finds the rest of the path found from the root. */
  lemma SearchBelow(t: Tree, x: string, p: Path, inherited: Path)
    requires Search(t, x) == Some(p) && PathContains(inherited, p, false) && Stay !in Expand(inherited)
    ensures Resolve(t, inherited).Some?
    ensures var q := Search(Resolve(t, inherited).value, x);
            q.Some? && Expand(p) == Expand(inherited) + Expand(q.value)
  {
    SearchHits(t, x);
    PathContainsIsPrefix(inherited, p, false);
    ResolveFollows(t, inherited);
    var prefix := Expand(inherited);
    var rest := Expand(p)[|prefix|..];
    assert Expand(p) == prefix + rest;
    FollowConcat(t, prefix, rest);
    var sub := Resolve(t, inherited).value;
    assert Hit(sub, x, rest);
    SearchFindsFirst(sub, x, rest);
    SearchHits(sub, x);
    var q := Search(sub, x).value;
    FollowConcat(t, prefix, Expand(q));
    assert Hit(t, x, prefix + Expand(q));
    SearchFindsFirst(t, x, prefix + Expand(q));
    BeforeUnder(prefix, rest, Expand(q));
    BeforeBothWays(rest, Expand(q));
  }

  /** Nothing is found below a node if nothing is found from the root. */
  lemma SearchNotBelow(t: Tree, x: string, path: Path)
    requires Search(t, x) == None && Stay !in Expand(path) && Resolve(t, path).Some?
    ensures Search(Resolve(t, path).value, x) == None
  {
    ResolveFollows(t, path);
    var sub := Resolve(t, path).value;
    if Search(sub, x).Some? {
      SearchHits(sub, x);
      FollowConcat(t, Expand(path), Expand(Search(sub, x).value));
      SearchFindsFirst(t, x, Expand(path) + Expand(Search(sub, x).value));
    }
  }

  /** A path that does not start along the spine ends at the identifier's own leaf. */
  lemma {:induction false} HeadPathIsLeaf(t: Tree, x: string)
    requires SpineMarked(t) && Search(t, x).Some? && !IsTail(Search(t, x).value)
    ensures Resolve(t, Search(t, x).value) == Some(Leaf(Some(x), {}))
    decreases t
  {
    var p := Search(t, x).value;
    ResolveFollows(t, p);
    if Search(t.head, x).Some? {
      var q := Search(t.head, x).value;
      UnmarkedPathIsLeaf(t.head, x);
      ResolveFollows(t.head, q);
      assert ([1] + q)[1..] == q && ExpandEntry(1) == [Head];
    } else {
      var q := Search(t.tail, x).value;
      SearchHits(t.tail, x);
      SquashAddsATail(q);
      assert !IsTail(q);
      HeadPathIsLeaf(t.tail, x);
      ResolveFollows(t.tail, q);
      assert Expand(p)[1..] == Expand(q);
    }
  }

  lemma {:induction false} UnmarkedPathIsLeaf(t: Tree, x: string)
    requires Unmarked(t) && Search(t, x).Some?
    ensures Resolve(t, Search(t, x).value) == Some(Leaf(Some(x), {}))
  {
    var p := Search(t, x).value;
    SearchHits(t, x);
    ResolveFollows(t, p);
    UnmarkedFollow(t, Expand(p));
  }

  lemma {:induction false} UnmarkedFollow(t: Tree, steps: seq<Dir>)
    requires Unmarked(t) && Follow(t, steps).Some?
    ensures Unmarked(Follow(t, steps).value)
    decreases |steps|
  {
    if steps != [] { UnmarkedFollow(StepTo(t, steps[0]).value, steps[1..]); }
  }

  // ----- The inherited path -----

  predicate Spine(steps: seq<Dir>) { forall i :: 0 <= i < |steps| ==> steps[i] == Tail }

  lemma {:induction false} RepeatIsSpine(n: nat)
    ensures Spine(Repeat(n))
  {
    if n > 0 { RepeatIsSpine(n - 1); }
  }

  lemma TailPathIsSpine(path: Path)
    requires Squashed(path) && IsTail(path)
    ensures Spine(Expand(path))
  {
    if path != [] {
      assert |path| == 1;
      RepeatIsSpine(-path[0]);
      assert path[1..] == [];
    }
  }

  lemma SpinePrefix(a: seq<Dir>, b: seq<Dir>)
    requires Spine(a) && Spine(b)
    ensures a <= b || b <= a
  {
    if |a| <= |b| { assert a == b[..|a|]; } else { assert b == a[..|b|]; }
  }

  /** The chosen tail path is one of them and contains all of them. */
  lemma {:induction false} OutermostContains(paths: seq<Path>, best: Option<Path>)
    requires forall p <- paths :: Squashed(p)
    requires best.Some? ==> Squashed(best.value) && IsTail(best.value)
    ensures var r := Outermost(paths, best);
            && (r.Some? ==> Squashed(r.value) && IsTail(r.value))
            && (best.Some? ==> r.Some? && PathContains(r.value, best.value, false))
            && (forall p <- paths :: IsTail(p) ==> r.Some? && PathContains(r.value, p, false))
            && (r.Some? ==> r == best || r.value in paths)
    decreases |paths|
  {
    if paths == [] {
      if best.Some? { PathContainsIsPrefix(best.value, best.value, false); }
    } else {
      var path := paths[0];
      var take := IsTail(path) && (best.None? || PathContains(path, best.value, false));
      var next := if take then Some(path) else best;
      OutermostContains(paths[1..], next);
      var r := Outermost(paths, best);
      assert forall p <- paths :: p == path || p in paths[1..];
      if IsTail(path) || best.Some? { NextContains(path, best, next, r.value); }
    }
  }

  lemma NextContains(path: Path, best: Option<Path>, next: Option<Path>, r: Path)
    requires Squashed(path) && (best.Some? ==> Squashed(best.value) && IsTail(best.value))
    requires next == if IsTail(path) && (best.None? || PathContains(path, best.value, false)) then Some(path) else best
    requires next.Some? && PathContains(r, next.value, false)
    ensures IsTail(path) ==> PathContains(r, path, false)
    ensures best.Some? ==> PathContains(r, best.value, false)
  {
    PathContainsIsPrefix(r, next.value, false);
    PathContainsIsPrefix(r, path, false);
    if best.Some? {
      PathContainsIsPrefix(r, best.value, false);
      PathContainsIsPrefix(path, best.value, false);
      TailPathIsSpine(best.value);
      if IsTail(path) {
        TailPathIsSpine(path);
        SpinePrefix(Expand(path), Expand(best.value));
      }
    }
  }

  // ----- Lookup in the rebuilt environment -----

  /** The identifiers whose paths are kept outside the inherited one, in order. */
  function KeptIdents(t: Tree, idents: seq<string>, inherited: Option<Path>): seq<string> {
    if idents == [] then []
    else
      var path := Search(t, idents[0]);
      (if path.Some? && (inherited.None? || !PathContains(inherited.value, path.value, false)) then [idents[0]] else [])
      + KeptIdents(t, idents[1..], inherited)
  }

  function PathsOf(t: Tree, kept: seq<string>): seq<Option<Path>> {
    if kept == [] then [] else [Search(t, kept[0])] + PathsOf(t, kept[1..])
  }

  lemma {:induction false} OutsideIsKept(t: Tree, idents: seq<string>, inherited: Option<Path>)
    ensures Outside(FoundPaths(t, idents), inherited) == PathsOf(t, KeptIdents(t, idents, inherited))
  {
    if idents != [] {
      OutsideIsKept(t, idents[1..], inherited);
      var rest := KeptIdents(t, idents[1..], inherited);
      var path := Search(t, idents[0]);
      if path.Some? {
        assert FoundPaths(t, idents)[1..] == FoundPaths(t, idents[1..]);
        if inherited.None? || !PathContains(inherited.value, path.value, false) {
          assert ([idents[0]] + rest)[1..] == rest;
        } else {
          assert [] + rest == rest;
        }
      } else {
        assert [] + rest == rest;
      }
    }
  }

  lemma {:induction false} KeptMeans(t: Tree, idents: seq<string>, inherited: Option<Path>, x: string)
    ensures x in KeptIdents(t, idents, inherited) <==>
            x in idents && Search(t, x).Some?
                && (inherited.None? || !PathContains(inherited.value, Search(t, x).value, false))
  {
    if idents != [] {
      KeptMeans(t, idents[1..], inherited, x);
      assert x in idents <==> x == idents[0] || x in idents[1..];
    }
  }

  /**
   Lookup of an identifier in an environment is preserved: same node, and the value at the new path is the old one.
   */
  predicate SameLookup(t: Tree, v: Value, t': Tree, v': Value, x: string) {
    match Search(t, x)
    case None => Search(t', x) == None
    case Some(p) =>
      && Search(t', x).Some?
      && Resolve(t', Search(t', x).value) == Resolve(t, p)
      && NthPath(v', Search(t', x).value) == NthPath(v, p)
  }

  lemma PathsOfLength(t: Tree, kept: seq<string>)
    ensures |PathsOf(t, kept)| == |kept|
  {
    if kept != [] { PathsOfLength(t, kept[1..]); }
  }

  /** Prepending the leaves of other identifiers, or the identifier's own, keeps its lookup. */
  lemma {:induction false} LookupPastKept(t: Tree, v: Value, kept: seq<string>, last: Option<Path>, x: string)
    requires forall y <- kept :: Search(t, y).Some? && Resolve(t, Search(t, y).value) == Some(Leaf(Some(y), {}))
    requires x in kept || SameLookup(t, v, NodeAt(t, last), ValueAt(v, last), x)
    ensures var paths := PathsOf(t, kept) + [last];
            SameLookup(t, v, Rebuild(t, paths), RebuildValue(v, paths), x)
    decreases |kept|
  {
    var paths := PathsOf(t, kept) + [last];
    if kept == [] {
      assert paths == [last];
    } else {
      var y := kept[0];
      var rest := PathsOf(t, kept[1..]) + [last];
      assert paths == [Search(t, y)] + rest && paths[1..] == rest;
      assert y in kept;
      var t', v' := Rebuild(t, paths), RebuildValue(v, paths);
      assert t' == Node(Leaf(Some(y), {}), Rebuild(t, rest), {});
      if x == y {
        assert Search(t'.head, x) == Some([]) && [1] + [] == [1];
        assert Search(t', x) == Some([1]);
        assert Resolve(t', [1]) == Some(t'.head) by { assert Resolve(t'.head, [1][1..]) == Some(t'.head); }
        assert NthPath(v', [1]) == HeadOf(v') by { assert NthPath(HeadOf(v'), [1][1..]) == HeadOf(v'); }
      } else {
        assert x in kept ==> x in kept[1..];
        LookupPastKept(t, v, kept[1..], last, x);
        LookupPastOther(t, v, y, t'.tail, ValueAt(v, paths[0]), RebuildValue(v, rest), x);
      }
    }
  }

  lemma LookupPastOther(t: Tree, v: Value, y: string, sub: Tree, w: Value, subv: Value, x: string)
    requires x != y && SameLookup(t, v, sub, subv, x)
    ensures SameLookup(t, v, Node(Leaf(Some(y), {}), sub, {}), PairV(w, subv), x)
  {
    var t' := Node(Leaf(Some(y), {}), sub, {});
    if Search(sub, x).Some? {
      var q := Search(sub, x).value;
      SearchHits(sub, x);
      SquashAddsATail(q);
      ResolveFollows(t', Squash(q));
      ResolveFollows(sub, q);
      assert Expand(Squash(q))[1..] == Expand(q);
      NthSquashed(PairV(w, subv), q);
    }
  }

  lemma LookupInInherited(t: Tree, v: Value, inherited: Path, x: string)
    requires Squashed(inherited) && IsTail(inherited) && Resolve(t, inherited).Some?
    requires Search(t, x).Some? ==> PathContains(inherited, Search(t, x).value, false)
    ensures SameLookup(t, v, NodeAt(t, Some(inherited)), ValueAt(v, Some(inherited)), x)
  {
    TailPathIsSpine(inherited);
    if Search(t, x).Some? {
      var p := Search(t, x).value;
      SearchBelow(t, x, p, inherited);
      var sub := Resolve(t, inherited).value;
      var q := Search(sub, x).value;
      ResolveFollows(t, p);
      ResolveFollows(t, inherited);
      ResolveFollows(sub, q);
      FollowConcat(t, Expand(inherited), Expand(q));
      PathWalks(v, p);
      PathWalks(v, inherited);
      PathWalks(NthPath(v, inherited), q);
      WalkConcat(v, Expand(inherited), Expand(q));
    } else {
      SearchNotBelow(t, x, inherited);
    }
  }

  lemma {:induction false} FoundMeans(t: Tree, idents: seq<string>, p: Path)
    ensures p in FoundPaths(t, idents) <==> exists x <- idents :: Search(t, x) == Some(p)
  {
    if idents != [] {
      var rest := idents[1..];
      FoundMeans(t, rest, p);
      if x :| x in rest && Search(t, x) == Some(p) {
        assert x in idents;
      }
      if x :| x in idents && Search(t, x) == Some(p) {
        assert x == idents[0] || x in rest;
      }
      if Search(t, idents[0]) == Some(p) {
        assert idents[0] in idents;
      }
    }
  }

  /**
   Closure conversion preserves lookup: in the rebuilt environment every one of the
   identifiers is found exactly if it was, at the same node, and the rebuilt value
   holds at the new path what the old one held at the old path.
   */
  lemma CompactKeepsLookup(t: Tree, v: Value, idents: seq<string>, x: string)
    requires SpineMarked(t) && x in idents
    ensures var paths := CompactPaths(t, idents);
            SameLookup(t, v, Rebuild(t, paths), RebuildValue(v, paths), x)
  {
    var found := FoundPaths(t, idents);
    var inherited := Outermost(found, None);
    forall p <- found ensures Squashed(p) && Resolve(t, p).Some? {
      FoundMeans(t, idents, p);
      var y :| y in idents && Search(t, y) == Some(p);
      SearchHits(t, y);
      ResolveFollows(t, p);
    }
    OutermostContains(found, None);
    var kept := KeptIdents(t, idents, inherited);
    OutsideIsKept(t, idents, inherited);
    forall y <- kept
      ensures Search(t, y).Some? && Resolve(t, Search(t, y).value) == Some(Leaf(Some(y), {}))
    {
      KeptMeans(t, idents, inherited, y);
      FoundMeans(t, idents, Search(t, y).value);
      HeadPathIsLeaf(t, y);
    }
    KeptMeans(t, idents, inherited, x);
    if x !in kept {
      if inherited.Some? {
        LookupInInherited(t, v, inherited.value, x);
      } else {
        assert Search(Leaf(None, {}), x) == None;
      }
    }
    LookupPastKept(t, v, kept, inherited, x);
  }
}
