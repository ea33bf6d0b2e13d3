/**
 Alterations and patches of a text.

 An alteration replaces a range of characters. A patch is a list of reversible
 alterations, which also hold the text they remove.
 */
module EditorText {
  import opened Prelude

  datatype Alteration = Alteration(start: nat, end: nat, replacement: string)
  datatype Hunk = Hunk(remove: string, insert: string, position: nat)
  type Patch = seq<Hunk>

  // ----- Order -----

  predicate Precedes(a: Alteration, b: Alteration) {
    a.start < b.start || (a.start == b.start && a.end <= b.end)
  }

  /** The new head of a sorted list stays in front of its equals, so that sorting is stable. */
  function Insert(a: Alteration, sorted: seq<Alteration>): seq<Alteration> {
    if sorted == [] || Precedes(a, sorted[0]) then [a] + sorted else [sorted[0]] + Insert(a, sorted[1..])
  }

  function SortAlterations(alterations: seq<Alteration>): seq<Alteration> {
    if alterations == [] then [] else Insert(alterations[0], SortAlterations(alterations[1..]))
  }

  predicate Sorted(alterations: seq<Alteration>) {
    forall i :: 0 <= i < |alterations| - 1 ==> Precedes(alterations[i], alterations[i + 1])
  }

  lemma {:induction false} InsertSorts(a: Alteration, sorted: seq<Alteration>)
    requires Sorted(sorted)
    ensures Sorted(Insert(a, sorted))
    ensures multiset(Insert(a, sorted)) == multiset{a} + multiset(sorted)
    ensures Insert(a, sorted)[0] == a || (sorted != [] && Insert(a, sorted)[0] == sorted[0])
  {
    if sorted == [] || Precedes(a, sorted[0]) {
    } else {
      assert forall i :: 0 <= i < |sorted[1..]| ==> sorted[1..][i] == sorted[i + 1];
      InsertSorts(a, sorted[1..]);
      assert sorted == [sorted[0]] + sorted[1..];
    }
  }

  /** Sorting gives an ascending permutation. */
  lemma {:induction false} SortingSorts(alterations: seq<Alteration>)
    ensures Sorted(SortAlterations(alterations))
    ensures multiset(SortAlterations(alterations)) == multiset(alterations)
  {
    if alterations != [] {
      SortingSorts(alterations[1..]);
      InsertSorts(alterations[0], SortAlterations(alterations[1..]));
      assert alterations == [alterations[0]] + alterations[1..];
    }
  }

  /** In ascending order and disjoint, starting no earlier than the position. */
  predicate Chained(alterations: seq<Alteration>, position: nat) {
    alterations != [] ==>
      && position <= alterations[0].start <= alterations[0].end
      && Chained(alterations[1..], alterations[0].end)
  }

  /** Where the last alteration ends; the position itself if there is none. */
  function End(alterations: seq<Alteration>, position: nat): nat {
    if alterations == [] then position else End(alterations[1..], alterations[0].end)
  }

  /** In ascending order, disjoint, and inside a text of this length. */
  predicate Fits(alterations: seq<Alteration>, position: nat, length: nat) {
    Chained(alterations, position) && End(alterations, position) <= length
  }

  lemma {:induction false} FitsWithin(alterations: seq<Alteration>, position: nat, length: nat)
    requires Fits(alterations, position, length)
    ensures position <= length
    decreases |alterations|
  {
    if alterations != [] { FitsWithin(alterations[1..], alterations[0].end, length); }
  }

  lemma {:induction false} ChainedIsSorted(alterations: seq<Alteration>, position: nat)
    requires Chained(alterations, position)
    ensures SortAlterations(alterations) == alterations
  {
    if alterations != [] {
      var rest := alterations[1..];
      ChainedIsSorted(rest, alterations[0].end);
      assert rest != [] ==> Precedes(alterations[0], rest[0]);
      assert alterations == [alterations[0]] + rest;
    }
  }

  // ----- alter_string -----

  function Slice(s: string, from: nat, to: nat): string {
    if from <= to <= |s| then s[from..to] else if from <= |s| < to then s[from..] else ""
  }

  function AlterFrom(s: string, alterations: seq<Alteration>, position: nat): string
    requires Chained(alterations, position)
    decreases |alterations|
  {
    if alterations == [] then Slice(s, position, position + |s|)
    else
      var a := alterations[0];
      Slice(s, position, a.start) + a.replacement + AlterFrom(s, alterations[1..], a.end)
  }

  function AlterString(s: string, alterations: seq<Alteration>): string
    requires Chained(SortAlterations(alterations), 0)
  {
    AlterFrom(s, SortAlterations(alterations), 0)
  }

  /** Text before the first alteration can be taken separately. */
  lemma AlterFromSplits(s: string, alterations: seq<Alteration>, position: nat, mid: nat)
    requires Chained(alterations, position) && position <= mid <= |s|
    requires alterations == [] || mid <= alterations[0].start
    ensures Chained(alterations, mid)
    ensures AlterFrom(s, alterations, position) == s[position..mid] + AlterFrom(s, alterations, mid)
  {
    if alterations == [] {
      assert s[position..] == s[position..mid] + s[mid..];
    } else {
      var a := alterations[0];
      SliceSplits(s, position, mid, a.start);
      Associates(s[position..mid], Slice(s, mid, a.start), a.replacement);
      Associates(s[position..mid], Slice(s, mid, a.start) + a.replacement, AlterFrom(s, alterations[1..], a.end));
    }
  }

  lemma SliceSplits(s: string, from: nat, mid: nat, to: nat)
    requires from <= mid <= |s| && mid <= to
    ensures Slice(s, from, to) == s[from..mid] + Slice(s, mid, to)
  {
  }

  // ----- Patches -----

  function ToPatch(alterations: seq<Alteration>, text: string): Patch {
    seq(|alterations|, i requires 0 <= i < |alterations| =>
      Hunk(Slice(text, alterations[i].start, alterations[i].end), alterations[i].replacement, alterations[i].start))
  }

  function ToAlteration(hunk: Hunk): Alteration {
    Alteration(hunk.position, hunk.position + |hunk.remove|, hunk.insert)
  }

  predicate Applies(hunk: Hunk, text: string) {
    Slice(text, hunk.position, hunk.position + |hunk.remove|) == hunk.remove
  }

  /** The alterations of a patch; None for every hunk that does not apply cleanly. */
  function ToAlterations(patch: Patch, text: string): seq<Option<Alteration>> {
    seq(|patch|, i requires 0 <= i < |patch| => if Applies(patch[i], text) then Some(ToAlteration(patch[i])) else None)
  }

  function InvertFrom(patch: Patch, offset: int): seq<(string, string, int)> {
    if patch == [] then []
    else
      var h := patch[0];
      [(h.insert, h.remove, h.position + offset)] + InvertFrom(patch[1..], offset + |h.insert| - |h.remove|)
  }

  /** The reverse hunks; positions are integers because a patch that is out of order may invert to a negative one. */
  function InvertPatch(patch: Patch): seq<(string, string, int)> { InvertFrom(patch, 0) }

  function AsPatch(hunks: seq<(string, string, int)>): Patch
    requires forall h <- hunks :: h.2 >= 0
  {
    seq(|hunks|, i requires 0 <= i < |hunks| => assert hunks[i] in hunks; Hunk(hunks[i].0, hunks[i].1, hunks[i].2))
  }

  function PatchAlterations(patch: Patch): seq<Alteration> {
    if patch == [] then [] else [ToAlteration(patch[0])] + PatchAlterations(patch[1..])
  }

  lemma {:induction false} PatchAlterationsAt(patch: Patch, i: nat)
    requires i < |patch|
    ensures |PatchAlterations(patch)| == |patch| && PatchAlterations(patch)[i] == ToAlteration(patch[i])
  {
    if |patch| > 1 { PatchAlterationsAt(patch[1..], if i == 0 then 0 else i - 1); }
  }

  // ----- Scripts -----

  /** A script lists the pieces of a text that a patch keeps and those it swaps. */
  datatype Script =
    | Rest(tail: string)
    | Piece(keep: string, remove: string, insert: string, next: Script)

  function Before(script: Script): string {
    match script
    case Rest(tail) => tail
    case Piece(keep, remove, _, next) => keep + remove + Before(next)
  }

  function After(script: Script): string {
    match script
    case Rest(tail) => tail
    case Piece(keep, _, insert, next) => keep + insert + After(next)
  }

  function ScriptPatch(script: Script, position: nat): Patch {
    match script
    case Rest(_) => []
    case Piece(keep, remove, insert, next) =>
      [Hunk(remove, insert, position + |keep|)] + ScriptPatch(next, position + |keep| + |remove|)
  }

  function Swap(script: Script): Script {
    match script
    case Rest(_) => script
    case Piece(keep, remove, insert, next) => Piece(keep, insert, remove, Swap(next))
  }

  /** The pieces that alterations make of the text from a position on. */
  function ScriptOf(alterations: seq<Alteration>, text: string, position: nat): Script
    requires Fits(alterations, position, |text|)
    decreases |alterations|
  {
    FitsWithin(alterations, position, |text|);
    if alterations == [] then Rest(text[position..])
    else
      var a := alterations[0];
      FitsWithin(alterations[1..], a.end, |text|);
      Piece(text[position..a.start], text[a.start..a.end], a.replacement, ScriptOf(alterations[1..], text, a.end))
  }

  lemma SplitAt(s: string, i: nat, j: nat, k: nat)
    requires i <= j <= k <= |s|
    ensures s[i..j] + s[j..k] + s[k..] == s[i..]
  {
  }

  lemma {:induction false} ScriptBefore(alterations: seq<Alteration>, text: string, position: nat)
    requires Fits(alterations, position, |text|)
    ensures position <= |text| && Before(ScriptOf(alterations, text, position)) == text[position..]
    decreases |alterations|
  {
    FitsWithin(alterations, position, |text|);
    if alterations != [] {
      var a := alterations[0];
      FitsWithin(alterations[1..], a.end, |text|);
      ScriptBefore(alterations[1..], text, a.end);
      SplitAt(text, position, a.start, a.end);
    }
  }

  lemma {:induction false} ScriptAfter(alterations: seq<Alteration>, text: string, position: nat)
    requires Fits(alterations, position, |text|)
    ensures After(ScriptOf(alterations, text, position)) == AlterFrom(text, alterations, position)
    decreases |alterations|
  {
    FitsWithin(alterations, position, |text|);
    if alterations != [] {
      FitsWithin(alterations[1..], alterations[0].end, |text|);
      ScriptAfter(alterations[1..], text, alterations[0].end);
    }
  }

  lemma {:induction false} ScriptIsPatch(alterations: seq<Alteration>, text: string, position: nat)
    requires Fits(alterations, position, |text|)
    ensures ScriptPatch(ScriptOf(alterations, text, position), position) == ToPatch(alterations, text)
    decreases |alterations|
  {
    FitsWithin(alterations, position, |text|);
    if alterations != [] {
      var a, rest := alterations[0], alterations[1..];
      FitsWithin(rest, a.end, |text|);
      ScriptIsPatch(rest, text, a.end);
      assert ToPatch(alterations, text) == [Hunk(text[a.start..a.end], a.replacement, a.start)] + ToPatch(rest, text);
    }
  }

  lemma {:induction false} SwapExchanges(script: Script)
    ensures Before(Swap(script)) == After(script) && After(Swap(script)) == Before(script)
  {
    if script.Piece? { SwapExchanges(script.next); }
  }

  /** The inverse of a script's patch is the patch of the swapped script. */
  predicate Inverts(script: Script, position: nat, offset: int) {
    var inverse := InvertFrom(ScriptPatch(script, position), offset);
    position + offset >= 0 && (forall h <- inverse :: h.2 >= 0)
    && AsPatch(inverse) == ScriptPatch(Swap(script), position + offset)
  }

  lemma {:induction false} SwapInverts(script: Script, position: nat, offset: int)
    requires position + offset >= 0
    ensures Inverts(script, position, offset)
    decreases script
  {
    if script.Piece? {
      var next, grown := position + |script.keep| + |script.remove|, offset + |script.insert| - |script.remove|;
      SwapInverts(script.next, next, grown);
      PieceInverts(script, position, offset, next, grown);
    }
  }

  lemma PieceInverts(script: Script, position: nat, offset: int, next: nat, grown: int)
    requires script.Piece? && position + offset >= 0 && Inverts(script.next, next, grown)
    requires next == position + |script.keep| + |script.remove| && grown == offset + |script.insert| - |script.remove|
    ensures Inverts(script, position, offset)
  {
    ConsInverts(Hunk(script.remove, script.insert, position + |script.keep|), ScriptPatch(script.next, next), offset);
  }

  lemma ConsInverts(h: Hunk, rest: Patch, offset: int)
    requires h.position + offset >= 0
    requires forall g <- InvertFrom(rest, offset + |h.insert| - |h.remove|) :: g.2 >= 0
    ensures forall g <- InvertFrom([h] + rest, offset) :: g.2 >= 0
    ensures AsPatch(InvertFrom([h] + rest, offset))
         == [Hunk(h.insert, h.remove, h.position + offset)]
             + AsPatch(InvertFrom(rest, offset + |h.insert| - |h.remove|))
  {
    assert ([h] + rest)[1..] == rest;
    var inverse, inverseRest := InvertFrom([h] + rest, offset), InvertFrom(rest, offset + |h.insert| - |h.remove|);
    assert inverse == [(h.insert, h.remove, h.position + offset)] + inverseRest;
    assert forall g <- inverse :: g == inverse[0] || g in inverseRest;
  }

  /** From the position on, the text is what the script starts from. */
  predicate Spells(text: string, position: nat, script: Script) {
    position <= |text| && text[position..] == Before(script)
  }

  lemma SpellsNext(text: string, position: nat, script: Script)
    requires script.Piece? && Spells(text, position, script)
    ensures Spells(text, position + |script.keep| + |script.remove|, script.next)
    ensures Slice(text, position, position + |script.keep|) == script.keep
    ensures Slice(text, position + |script.keep|, position + |script.keep| + |script.remove|) == script.remove
  {
    Peel(text, position, script.keep, script.remove, Before(script.next));
  }

  /** Every hunk of a script's patch applies cleanly. */
  lemma {:induction false} ScriptApplies(from: string, position: nat, script: Script, i: nat)
    requires Spells(from, position, script)
    requires i < |ScriptPatch(script, position)|
    ensures Applies(ScriptPatch(script, position)[i], from)
    decreases script
  {
    SpellsNext(from, position, script);
    if i > 0 {
      ScriptApplies(from, position + |script.keep| + |script.remove|, script.next, i - 1);
    }
  }

  /** Its alterations are in order and yield the text after the script. */
  lemma {:induction false} ScriptAlters(from: string, position: nat, script: Script)
    requires Spells(from, position, script)
    ensures AlterIfFits(from, PatchAlterations(ScriptPatch(script, position)), position) == Some(After(script))
    decreases script
  {
    match script
    case Rest(_) => assert Slice(from, position, position + |from|) == from[position..];
    case Piece(keep, remove, insert, next) =>
      var p := position + |keep|;
      SpellsNext(from, position, script);
      ScriptAlters(from, p + |remove|, next);
      HunkAlters(from, Hunk(remove, insert, p), ScriptPatch(next, p + |remove|), position, keep, After(next));
  }

  /** The altered text; None if the alterations are out of order or out of range. */
  function AlterIfFits(s: string, alterations: seq<Alteration>, position: nat): Option<string> {
    if Fits(alterations, position, |s|) then Some(AlterFrom(s, alterations, position)) else None
  }

  lemma HunkAlters(s: string, h: Hunk, rest: Patch, p: nat, keep: string, after: string)
    requires p <= h.position && h.position + |h.remove| <= |s| && Slice(s, p, h.position) == keep
    requires AlterIfFits(s, PatchAlterations(rest), h.position + |h.remove|) == Some(after)
    ensures AlterIfFits(s, PatchAlterations([h] + rest), p) == Some(keep + h.insert + after)
  {
    assert ([h] + rest)[1..] == rest;
    ConsAlters(s, ToAlteration(h), PatchAlterations(rest), p, keep, after);
  }

  lemma Peel(s: string, p: nat, a: string, b: string, c: string)
    requires p <= |s| && s[p..] == a + b + c
    ensures p + |a| + |b| <= |s| && s[p + |a| + |b|..] == c
    ensures Slice(s, p, p + |a|) == a && Slice(s, p + |a|, p + |a| + |b|) == b
  {
    var t := s[p..];
    assert |t| == |s| - p && |t| == |a| + |b| + |c|;
    assert s[p..p + |a|] == t[..|a|] == a;
    assert s[p + |a|..p + |a| + |b|] == t[|a|..|a| + |b|] == b;
    assert s[p + |a| + |b|..] == t[|a| + |b|..] == c;
  }

  lemma ConsAlters(s: string, a: Alteration, rest: seq<Alteration>, p: nat, keep: string, after: string)
    requires p <= a.start <= a.end <= |s| && Slice(s, p, a.start) == keep && AlterIfFits(s, rest, a.end) == Some(after)
    ensures AlterIfFits(s, [a] + rest, p) == Some(keep + a.replacement + after)
  {
    assert ([a] + rest)[1..] == rest;
  }

  /** Every hunk applies cleanly, and applying them all gives the other text. */
  predicate Restores(patch: Patch, from: string, to: string) {
    var alterations := PatchAlterations(patch);
    && (forall h <- patch :: Applies(h, from))
    && Fits(SortAlterations(alterations), 0, |from|)
    && AlterString(from, alterations) == to
  }

  // ----- rudimentary_diff -----

  predicate CommonPrefix(a: string, b: string, n: nat) {
    n <= |a| && n <= |b| && forall i :: 0 <= i < n ==> a[i] == b[i]
  }

  predicate CommonSuffix(a: string, b: string, n: nat) {
    n <= |a| && n <= |b| && forall i :: |a| - n <= i < |a| ==> a[i] == b[i + |b| - |a|]
  }

  /**
   One alteration that spares the longest common prefix, and then as much of the common
   suffix as the prefix leaves.
   */
  predicate Tight(a: string, b: string, x: Alteration) {
    var pre, post := x.start, |a| - x.end;
    && 0 <= post && pre + post <= |a| && pre + post <= |b|
    && CommonPrefix(a, b, pre) && !CommonPrefix(a, b, pre + 1)
    && CommonSuffix(a, b, post)
    && (pre + post == |a| || pre + post == |b| || !CommonSuffix(a, b, post + 1))
  }

  /**
   Equal texts have no difference; otherwise there is one tight alteration. It turns the first text into the second.
   */
  method RudimentaryDiff(a: string, b: string) returns (r: seq<Alteration>)
    ensures r == [] <==> a == b
    ensures AlterIfFits(a, r, 0) == Some(b)
    ensures r != [] ==> |r| == 1 && Tight(a, b, r[0])
  {
    if a == b {
      assert Slice(a, 0, |a|) == a;
      return [];
    }
    var pre := SharedPrefix(a, b);
    var post := SharedSuffix(a, b, pre);
    r := [Alteration(pre, |a| - post, b[pre..|b| - post])];
    MiddleReplaced(a, b, pre, post);
  }

  /** The first loop of the diff. */
  method SharedPrefix(a: string, b: string) returns (pre: nat)
    ensures CommonPrefix(a, b, pre) && !CommonPrefix(a, b, pre + 1)
  {
    pre := 0;
    while pre < |a| && pre < |b| && a[pre] == b[pre]
      invariant CommonPrefix(a, b, pre)
    {
      pre := pre + 1;
    }
  }

  /** The second loop of the diff: how much of a common suffix there is room for. */
  method SharedSuffix(a: string, b: string, pre: nat) returns (post: nat)
    requires pre <= |a| && pre <= |b|
    ensures pre + post <= |a| && pre + post <= |b| && CommonSuffix(a, b, post)
    ensures pre + post == |a| || pre + post == |b| || !CommonSuffix(a, b, post + 1)
  {
    post := 0;
    while post < |a| - pre && post < |b| - pre && a[|a| - 1 - post] == b[|b| - 1 - post]
      invariant pre + post <= |a| && pre + post <= |b|
      invariant CommonSuffix(a, b, post)
    {
      post := post + 1;
    }
  }

  lemma MiddleReplaced(a: string, b: string, pre: nat, post: nat)
    requires CommonPrefix(a, b, pre) && CommonSuffix(a, b, post) && pre + post <= |a| && pre + post <= |b|
    ensures var r := [Alteration(pre, |a| - post, b[pre..|b| - post])];
            AlterIfFits(a, r, 0) == Some(b)
  {
    var edit := Alteration(pre, |a| - post, b[pre..|b| - post]);
    assert AlterFrom(a, [], |a| - post) == a[|a| - post..];
    assert a[..pre] == b[..pre] && a[|a| - post..] == b[|b| - post..];
    ConsAlters(a, edit, [], 0, b[..pre], b[|b| - post..]);
    assert [edit] + [] == [edit];
    ThreeParts(b, pre, |b| - post);
  }
}
