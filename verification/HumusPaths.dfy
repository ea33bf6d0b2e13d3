/**
 Access paths into the static environment of the Humus compiler.

 The static environment is a tree of pairs whose leaves may carry an identifier.
 A node may also be marked with the names of closures whose environment it is
 (the array `abs_idents`). A path is a sequence of integers, each the immediate
 of one `nth` instruction: a positive entry n takes n-1 tails and then the head,
 a negative entry -n takes n tails, and zero stays where it is.
 */
module HumusPaths {
  import opened Prelude

  datatype Tree =
    | Leaf(name: Option<string>, marks: set<string>)
    | Node(head: Tree, tail: Tree, marks: set<string>)

  datatype Dir = Stay | Head | Tail

  type Path = seq<int>

  // ----- What a path means -----

  function Repeat(n: nat): (steps: seq<Dir>)
    ensures |steps| == n
  {
    if n == 0 then [] else [Tail] + Repeat(n - 1)
  }

  function ExpandEntry(n: int): seq<Dir> {
    if n == 0 then [Stay]
    else if n > 0 then Repeat(n - 1) + [Head]
    else Repeat(-n)
  }

  /** The single steps a path stands for. */
  function Expand(path: Path): seq<Dir> {
    if path == [] then [] else ExpandEntry(path[0]) + Expand(path[1..])
  }

  function StepTo(t: Tree, d: Dir): Option<Tree> {
    match d
    case Stay => Some(t)
    case Head => if t.Node? then Some(t.head) else None
    case Tail => if t.Node? then Some(t.tail) else None
  }

  /** The node reached by single steps; None once a step leaves the tree. */
  function Follow(t: Tree, steps: seq<Dir>): Option<Tree> {
    if steps == [] then Some(t)
    else
      match StepTo(t, steps[0])
      case None => None
      case Some(sub) => Follow(sub, steps[1..])
  }

  /** `nth`: None where the source would read a field of undefined. */
  function Nth(t: Tree, n: int): Option<Tree>
    decreases if n < 0 then -n else n
  {
    if n == 0 then Some(t)
    else if !t.Node? then None
    else if n == 1 then Some(t.head)
    else Nth(t.tail, if n > 0 then n - 1 else n + 1)
  }

  /** `path.reduce(nth, env)`. */
  function Resolve(t: Tree, path: Path): Option<Tree>
    decreases |path|
  {
    if path == [] then Some(t)
    else
      match Nth(t, path[0])
      case None => None
      case Some(sub) => Resolve(sub, path[1..])
  }

  lemma {:induction false} NthFollows(t: Tree, n: int)
    ensures Nth(t, n) == Follow(t, ExpandEntry(n))
    decreases if n < 0 then -n else n
  {
    if n == 0 {
      assert Follow(t, [Stay]) == Follow(t, []);
    } else if n == 1 {
      assert ExpandEntry(1) == [Head];
      if t.Node? { assert Follow(t, [Head]) == Follow(t.head, [Head][1..]); }
    } else {
      var m := if n > 0 then n - 1 else n + 1;
      if t.Node? {
        NthFollows(t.tail, m);
        if n == -1 {
          assert ExpandEntry(-1) == [Tail];
          assert Follow(t, [Tail]) == Follow(t.tail, [Tail][1..]);
        } else {
          assert ExpandEntry(n) == [Tail] + ExpandEntry(m);
        }
      }
    }
  }

  lemma {:induction false} FollowConcat(t: Tree, a: seq<Dir>, b: seq<Dir>)
    ensures Follow(t, a + b) ==
            match Follow(t, a) case None => None case Some(sub) => Follow(sub, b)
  {
    if a == [] {
      assert a + b == b;
    } else {
      assert (a + b)[1..] == a[1..] + b;
      match StepTo(t, a[0])
      case None =>
      case Some(sub) => FollowConcat(sub, a[1..], b);
    }
  }

  /** Folding `nth` over any path takes exactly the steps the path stands for. */
  lemma {:induction false} ResolveFollows(t: Tree, path: Path)
    ensures Resolve(t, path) == Follow(t, Expand(path))
    decreases |path|
  {
    if path != [] {
      NthFollows(t, path[0]);
      FollowConcat(t, ExpandEntry(path[0]), Expand(path[1..]));
      match Nth(t, path[0])
      case None =>
      case Some(sub) => ResolveFollows(sub, path[1..]);
    }
  }

  // ----- search -----

  /** Prepends one `nth -1`, squashed into the first entry where that is possible. */
  function Squash(tail: Path): Path {
    if |tail| > 0 && tail[0] < 0 then [tail[0] - 1] + tail[1..]
    else if |tail| > 0 && tail[0] > 0 then [tail[0] + 1] + tail[1..]
    else [-1] + tail
  }

  function Search(t: Tree, ident: string): Option<Path> {
    if ident in t.marks then Some([])
    else
      match t
      case Leaf(name, _) => if name == Some(ident) then Some([]) else None
      case Node(head, tail, _) =>
        match Search(head, ident)
        case Some(path) => Some([1] + path)
        case None =>
          match Search(tail, ident)
          case Some(path) => Some(Squash(path))
          case None => None
  }

  /** Positive entries followed by at most one negative entry. */
  predicate Squashed(path: Path) {
    forall i :: 0 <= i < |path| ==> path[i] > 0 || (path[i] < 0 && i == |path| - 1)
  }

  /** The node itself answers a search for the identifier. */
  predicate Answers(t: Tree, ident: string) {
    ident in t.marks || (t.Leaf? && t.name == Some(ident))
  }

  predicate Hit(t: Tree, ident: string, steps: seq<Dir>) {
    && Stay !in steps
    && Follow(t, steps).Some?
    && Answers(Follow(t, steps).value, ident)
  }

  /** Head-first preorder: a node comes before everything below it, heads before tails. */
  predicate Before(a: seq<Dir>, b: seq<Dir>) {
    if a == [] then true
    else if b == [] then false
    else if a[0] == b[0] then Before(a[1..], b[1..])
    else a[0] == Head
  }

  lemma {:induction false} SquashAddsATail(path: Path)
    requires Squashed(path)
    ensures Squashed(Squash(path))
    ensures Expand(Squash(path)) == [Tail] + Expand(path)
  {
    assert ExpandEntry(-1) == [Tail];
    if path == [] {
      assert Expand([-1]) == ExpandEntry(-1);
    } else {
      var n := if path[0] > 0 then path[0] + 1 else path[0] - 1;
      assert path == [path[0]] + path[1..];
      SplitKeepsSteps(n, path[0], path[1..]);
      assert [-1, path[0]] + path[1..] == [-1] + path;
      ConsExpands(-1, path);
    }
  }

  lemma HitBelow(t: Tree, ident: string, d: Dir, steps: seq<Dir>)
    requires d != Stay
    ensures Hit(t, ident, [d] + steps) <==> StepTo(t, d).Some? && Hit(StepTo(t, d).value, ident, steps)
  {
    assert ([d] + steps)[1..] == steps;
  }

  /** What `search` returns is a squashed path to an answering node. */
  lemma {:induction false} SearchHits(t: Tree, ident: string)
    requires Search(t, ident).Some?
    ensures Squashed(Search(t, ident).value)
    ensures Hit(t, ident, Expand(Search(t, ident).value))
    decreases t
  {
    if !Answers(t, ident) {
      if Search(t.head, ident).Some? {
        var p := Search(t.head, ident).value;
        SearchHits(t.head, ident);
        assert ([1] + p)[1..] == p && ExpandEntry(1) == [Head];
        HitBelow(t, ident, Head, Expand(p));
      } else {
        var p := Search(t.tail, ident).value;
        SearchHits(t.tail, ident);
        SquashAddsATail(p);
        HitBelow(t, ident, Tail, Expand(p));
      }
    }
  }

  /** Whenever some node answers, `search` finds one no later in head-first preorder. */
  lemma {:induction false} SearchFindsFirst(t: Tree, ident: string, steps: seq<Dir>)
    requires Hit(t, ident, steps)
    ensures Search(t, ident).Some? && Before(Expand(Search(t, ident).value), steps)
    decreases t
  {
    if !Answers(t, ident) {
      assert steps[0] in steps;
      assert steps == [steps[0]] + steps[1..];
      HitBelow(t, ident, steps[0], steps[1..]);
      if steps[0] == Head {
        SearchFindsFirst(t.head, ident, steps[1..]);
        var p := Search(t.head, ident).value;
        assert ([1] + p)[1..] == p && ExpandEntry(1) == [Head];
      } else if Search(t.head, ident).Some? {
        var p := Search(t.head, ident).value;
        assert ([1] + p)[1..] == p && ExpandEntry(1) == [Head];
      } else {
        SearchFindsFirst(t.tail, ident, steps[1..]);
        SearchHits(t.tail, ident);
        SquashAddsATail(Search(t.tail, ident).value);
      }
    }
  }

  /** `search` finds the first answering node in head-first preorder, and nothing exactly when there is none. */
  lemma SearchIsFirst(t: Tree, ident: string)
    ensures Search(t, ident) == None <==> forall steps :: !Hit(t, ident, steps)
    ensures Search(t, ident).Some? ==>
              var path := Search(t, ident).value;
              && Squashed(path)
              && Hit(t, ident, Expand(path))
              && forall steps :: Hit(t, ident, steps) ==> Before(Expand(path), steps)
  {
    if Search(t, ident).Some? { SearchHits(t, ident); }
    forall steps | Hit(t, ident, steps)
      ensures Search(t, ident).Some? && Before(Expand(Search(t, ident).value), steps)
    {
      SearchFindsFirst(t, ident, steps);
    }
  }

  // ----- path_contains -----

  function Decompose(path: Path): Option<Path> {
    if |path| > 0 && path[0] > 1 then Some([-1, path[0] - 1] + path[1..])
    else if |path| > 0 && path[0] < -1 then Some([-1, path[0] + 1] + path[1..])
    else None
  }

  function EntryWeight(n: int): nat {
    if n == 0 then 1 else if n > 0 then 2 * n - 1 else -2 * n - 1
  }

  function Weight(path: Path): nat {
    if path == [] then 0 else EntryWeight(path[0]) + Weight(path[1..])
  }

  lemma ConsExpands(n: int, rest: Path)
    ensures Weight([n] + rest) == EntryWeight(n) + Weight(rest)
    ensures Expand([n] + rest) == ExpandEntry(n) + Expand(rest)
  {
    assert ([n] + rest)[1..] == rest;
  }

  lemma EntrySplits(n: int)
    requires n > 1 || n < -1
    ensures ExpandEntry(n) == ExpandEntry(-1) + ExpandEntry(if n > 0 then n - 1 else n + 1)
  {
    assert Repeat(1) == [Tail] + Repeat(0);
  }

  lemma SplitKeepsSteps(n: int, m: int, rest: Path)
    requires (n > 1 && m == n - 1) || (n < -1 && m == n + 1)
    ensures Weight([-1, m] + rest) < Weight([n] + rest)
    ensures Expand([-1, m] + rest) == Expand([n] + rest)
  {
    TwoExpand(m, rest);
    ConsExpands(n, rest);
    EntrySplits(n);
    Associates(ExpandEntry(-1), ExpandEntry(m), Expand(rest));
  }

  lemma TwoExpand(m: int, rest: Path)
    ensures Weight([-1, m] + rest) == EntryWeight(-1) + (EntryWeight(m) + Weight(rest))
    ensures Expand([-1, m] + rest) == ExpandEntry(-1) + (ExpandEntry(m) + Expand(rest))
  {
    ConsExpands(m, rest);
    ConsExpands(-1, [m] + rest);
    assert [-1, m] + rest == [-1] + ([m] + rest);
  }

  lemma DecomposeKeepsSteps(path: Path)
    requires Decompose(path).Some?
    ensures Weight(Decompose(path).value) < Weight(path)
    ensures Expand(Decompose(path).value) == Expand(path)
  {
    assert path == [path[0]] + path[1..];
    SplitKeepsSteps(path[0], if path[0] > 0 then path[0] - 1 else path[0] + 1, path[1..]);
  }

  function PathContains(a: Path, b: Path, exclusive: bool): bool
    decreases Weight(a) + Weight(b)
  {
    if |a| == 0 then !exclusive || |b| > 0
    else
      match Decompose(a)
      case Some(aa) => DecomposeKeepsSteps(a); PathContains(aa, b, exclusive)
      case None =>
        match Decompose(b)
        case Some(bb) => DecomposeKeepsSteps(b); PathContains(a, bb, exclusive)
        case None =>
          if |b| == 0 || a[0] != b[0] then false
          else PathContains(a[1..], b[1..], exclusive)
  }

  lemma ExpandFirst(path: Path)
    requires path != [] && Decompose(path) == None
    ensures Expand(path) ==
            [if path[0] == 0 then Stay else if path[0] == 1 then Head else Tail] + Expand(path[1..])
  {
    assert ExpandEntry(-1) == [Tail] && ExpandEntry(1) == [Head];
  }

  lemma ExpandEmpty(path: Path)
    ensures Expand(path) == [] <==> path == []
  {
    if path != [] { assert ExpandEntry(path[0]) != []; }
  }

  /** For every pair of integer paths, containment is the prefix order on the steps (the proper one if exclusive). */
  lemma {:induction false} PathContainsIsPrefix(a: Path, b: Path, exclusive: bool)
    ensures PathContains(a, b, exclusive) <==>
            if exclusive then Expand(a) < Expand(b) else Expand(a) <= Expand(b)
    decreases Weight(a) + Weight(b)
  {
    if |a| == 0 {
      ExpandEmpty(b);
    } else if Decompose(a).Some? {
      DecomposeKeepsSteps(a);
      PathContainsIsPrefix(Decompose(a).value, b, exclusive);
    } else if Decompose(b).Some? {
      DecomposeKeepsSteps(b);
      PathContainsIsPrefix(a, Decompose(b).value, exclusive);
    } else {
      ExpandFirst(a);
      if |b| > 0 {
        ExpandFirst(b);
        PathContainsIsPrefix(a[1..], b[1..], exclusive);
        assert Expand(b)[1..] == Expand(b[1..]);
        assert Expand(a)[1..] == Expand(a[1..]);
      }
    }
  }
}
