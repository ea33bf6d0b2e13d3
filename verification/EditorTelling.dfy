/**
 When a restored text tells that every hunk was undone where it belongs.
 */
module EditorTelling {
  import opened Prelude
  import opened EditorText
  import opened EditorOrder
  import opened EditorInverse

  // ----- Scripts that two texts tell -----

  /** What is kept occurs in both texts, what is removed only in the first, what is inserted only in the second. */
  predicate Clean(script: Script, from: set<char>, to: set<char>) {
    match script
    case Rest(tail) => forall c <- tail :: c in from && c in to
    case Piece(keep, remove, insert, next) =>
      && (forall c <- keep :: c in from && c in to)
      && (forall c <- remove :: c !in to) && (forall c <- insert :: c !in from)
      && (remove != "" || insert != "")
      && Clean(next, from, to)
  }

  /** Something is kept between any two pieces. */
  predicate Gapped(script: Script) {
    script.Piece? ==> (script.next.Piece? ==> script.next.keep != "") && Gapped(script.next)
  }

  function Pieces(script: Script): nat { if script.Rest? then 0 else 1 + Pieces(script.next) }

  /** The texts differ where the first piece begins. */
  lemma FirstDifference(script: Script, from: set<char>, to: set<char>)
    requires Clean(script, from, to) && script.Piece?
    requires (forall c <- Before(script) :: c in from) && (forall c <- After(script) :: c in to)
    ensures var x, y, m := Before(script), After(script), |script.keep|;
            x != y && (m < |x| && m < |y| ==> x[m] != y[m])
  {
    var x, y, m := Before(script), After(script), |script.keep|;
    if script.remove != "" {
      assert x[m] == script.remove[0] && script.remove[0] in script.remove;
    } else {
      assert y[m] == script.insert[0] && script.insert[0] in script.insert;
    }
  }

  /** A script of the same texts cannot keep less before its first piece. */
  lemma KeepsAsMuch(s: Script, t: Script, from: set<char>, to: set<char>)
    requires Clean(s, from, to) && Clean(t, from, to) && s.Piece? && t.Piece?
    requires (forall c <- Before(t) :: c in from) && (forall c <- After(t) :: c in to)
    requires Before(s) == Before(t) && After(s) == After(t)
    ensures |s.keep| <= |t.keep|
  {
    FirstDifference(t, from, to);
    assert Before(s)[..|s.keep|] == s.keep == After(s)[..|s.keep|];
  }

  /** Characters that do not occur in what follows end before it does. */
  lemma RunEnds(x: string, y: string, s: string, t: string)
    requires x + s == y + t && (s != "" ==> s[0] !in y)
    ensures |y| <= |x| && x[..|y|] == y && x[|y|..] + s == t
  {
    RunNoLonger(x, y, s, t);
    assert (x + s)[..|y|] == x[..|y|] && (y + t)[..|y|] == y;
    assert (x + s)[|y|..] == x[|y|..] + s && (y + t)[|y|..] == t;
  }

  lemma RunNoLonger(x: string, y: string, s: string, t: string)
    requires x + s == y + t && (s != "" ==> s[0] !in y)
    ensures |y| <= |x|
  {
    if s == "" {
      assert |x + s| == |x|;
    } else {
      assert (x + s)[|x|] == s[0];
      assert forall i :: 0 <= i < |y| ==> (y + t)[i] == y[i];
    }
  }

  /** After a piece something is kept, or nothing follows. */
  lemma KeptFollows(script: Script, from: set<char>, to: set<char>)
    requires Clean(script, from, to) && (script.Piece? ==> script.keep != "")
    ensures Before(script) != "" ==> Before(script)[0] in to
    ensures After(script) != "" ==> After(script)[0] in from
  {
    if script.Piece? { assert script.keep[0] in script.keep; }
  }

  lemma Unkeep(a: string, x: string, y: string)
    requires a + x == a + y
    ensures x == y
  {
    assert (a + x)[|a|..] == x && (a + y)[|a|..] == y;
  }

  /**
   A script that keeps something between its pieces has the fewest pieces, and with as many no other script is clean.
   */
  lemma {:induction false} ScriptUnique(s: Script, t: Script, from: set<char>, to: set<char>)
    requires Clean(s, from, to) && Gapped(s) && Clean(t, from, to)
    requires (forall c <- Before(t) :: c in from) && (forall c <- After(t) :: c in to)
    requires Before(s) == Before(t) && After(s) == After(t)
    ensures Pieces(s) <= Pieces(t)
    ensures Pieces(s) == Pieces(t) ==> s == t
    decreases t
  {
    if s.Piece? {
      FirstDifference(s, from, to);
      if t.Piece? {
        var s1 := Left(s, t, from, to);
        ScriptUnique(s1, t.next, from, to);
      }
    }
  }

  /** The first piece of the one script is a beginning of the first piece of the other. What is left of that. */
  lemma Left(s: Script, t: Script, from: set<char>, to: set<char>) returns (s1: Script)
    requires s.Piece? && t.Piece? && Clean(s, from, to) && Gapped(s) && Clean(t, from, to)
    requires (forall c <- Before(t) :: c in from) && (forall c <- After(t) :: c in to)
    requires Before(s) == Before(t) && After(s) == After(t)
    ensures s.keep == t.keep && Clean(s1, from, to) && Gapped(s1) && Before(s1) == Before(t.next)
    ensures After(s1) == After(t.next)
    ensures if s.remove == t.remove && s.insert == t.insert then s1 == s.next else Pieces(s1) == Pieces(s)
    ensures (forall c <- Before(t.next) :: c in from) && (forall c <- After(t.next) :: c in to)
  {
    KeepsAsMuch(s, t, from, to);
    KeepsAsMuch(t, s, from, to);
    SameKeep(s, t);
    KeptFollows(s.next, from, to);
    RunEnds(s.remove, t.remove, Before(s.next), Before(t.next));
    RunEnds(s.insert, t.insert, After(s.next), After(t.next));
    s1 := Shorter(s, |t.remove|, |t.insert|);
  }

  /** The script after the beginning of its first piece. */
  function Shorter(s: Script, removed: nat, inserted: nat): (r: Script)
    requires s.Piece? && removed <= |s.remove| && inserted <= |s.insert|
    ensures Before(r) == s.remove[removed..] + Before(s.next)
    ensures After(r) == s.insert[inserted..] + After(s.next)
    ensures forall from, to :: Clean(s, from, to) ==> Clean(r, from, to)
    ensures Gapped(s) ==> Gapped(r)
  {
    if removed == |s.remove| && inserted == |s.insert| then s.next
    else
      assert "" + s.remove[removed..] == s.remove[removed..] && "" + s.insert[inserted..] == s.insert[inserted..];
      Piece("", s.remove[removed..], s.insert[inserted..], s.next)
  }

  lemma SameKeep(s: Script, t: Script)
    requires s.Piece? && t.Piece? && |s.keep| == |t.keep|
    requires Before(s) == Before(t) && After(s) == After(t)
    ensures s.keep == t.keep
    ensures s.remove + Before(s.next) == t.remove + Before(t.next)
    ensures s.insert + After(s.next) == t.insert + After(t.next)
  {
    Associates(s.keep, s.remove, Before(s.next));
    Associates(t.keep, t.remove, Before(t.next));
    Associates(s.keep, s.insert, After(s.next));
    Associates(t.keep, t.insert, After(t.next));
    assert Before(s)[..|s.keep|] == s.keep && Before(t)[..|t.keep|] == t.keep;
    Unkeep(s.keep, s.remove + Before(s.next), t.remove + Before(t.next));
    Unkeep(s.keep, s.insert + After(s.next), t.insert + After(t.next));
  }

  lemma {:induction false} SwapClean(script: Script, from: set<char>, to: set<char>)
    requires Clean(script, from, to)
    ensures Clean(Swap(script), to, from)
    ensures Pieces(Swap(script)) == Pieces(script) && (Gapped(script) ==> Gapped(Swap(script)))
  {
    if script.Piece? { SwapClean(script.next, from, to); }
  }

  // ----- Alterations that tell -----

  /** The alteration changes something, to which the characters of these texts can tell. */
  predicate Told(a: Alteration, text: string, from: string, to: string) {
    && a.start <= a.end <= |text| && (a.start < a.end || a.replacement != "")
    && (forall c <- text[a.start..a.end] :: c !in to) && (forall c <- a.replacement :: c !in from)
  }

  /** Something is kept between any two. */
  predicate Separate(sorted: seq<Alteration>) {
    forall i :: 0 <= i < |sorted| - 1 ==> sorted[i].end < sorted[i + 1].start
  }

  predicate Different(list: seq<Alteration>, text: string) {
    forall i, j :: 0 <= i < j < |list| ==>
      list[i].replacement != list[j].replacement || Removed(list[i], text) != Removed(list[j], text)
  }

  /** Alterations that are apart, are all different, and can be told from what is kept. */
  predicate Telling(list: seq<Alteration>, text: string)
    requires FitsSorted(list, |text|)
  {
    && Separate(SortAlterations(list)) && Different(list, text)
    && forall a <- list :: Told(a, text, text, AlterString(text, list))
  }

  function Characters(s: string): set<char> { set c | c in s }

  lemma {:induction false} ScriptClean(list: seq<Alteration>, text: string, position: nat, from: string, to: string)
    requires Fits(list, position, |text|)
    requires (forall c <- text :: c in from) && (forall c <- AlterFrom(text, list, position) :: c in to)
    requires forall a <- list :: Told(a, text, from, to)
    ensures Clean(ScriptOf(list, text, position), Characters(from), Characters(to))
    ensures Pieces(ScriptOf(list, text, position)) == |list|
    decreases |list|
  {
    FitsWithin(list, position, |text|);
    if list != [] {
      var a := list[0];
      FitsWithin(list[1..], a.end, |text|);
      AlterParts(text, list, position);
      assert a in list && forall x <- list[1..] :: x in list;
      ScriptClean(list[1..], text, a.end, from, to);
    }
  }

  /** What the altered text begins with and ends in. */
  lemma AlterParts(text: string, list: seq<Alteration>, position: nat)
    requires Fits(list, position, |text|) && list != []
    ensures position <= list[0].start <= |text|
    ensures forall c <- text[position..list[0].start] :: c in AlterFrom(text, list, position)
    ensures forall c <- AlterFrom(text, list[1..], list[0].end) :: c in AlterFrom(text, list, position)
  {
    FitsWithin(list[1..], list[0].end, |text|);
  }

  lemma {:induction false} ScriptGapped(list: seq<Alteration>, text: string, position: nat)
    requires Fits(list, position, |text|) && Separate(list)
    ensures Gapped(ScriptOf(list, text, position))
    decreases |list|
  {
    FitsWithin(list, position, |text|);
    if list != [] {
      FitsWithin(list[1..], list[0].end, |text|);
      SeparateNext(list);
      ScriptGapped(list[1..], text, list[0].end);
      if |list| > 1 { FitsWithin(list[1..][1..], list[1].end, |text|); }
    }
  }

  lemma SeparateNext(list: seq<Alteration>)
    requires list != [] && Separate(list)
    ensures Separate(list[1..]) && (|list| > 1 ==> list[0].end < list[1].start)
  {
    var rest := list[1..];
    if |list| > 1 { assert list[0].end < list[0 + 1].start; }
    forall i | 0 <= i < |rest| - 1 ensures rest[i].end < rest[i + 1].start {
      assert rest[i] == list[i + 1] && rest[i + 1] == list[i + 1 + 1];
    }
  }

  // ----- What a restored text tells -----

  lemma SortMembers(list: seq<Alteration>)
    ensures forall a :: a in SortAlterations(list) <==> a in list
  {
    SortingSorts(list);
    assert forall a :: a in SortAlterations(list) <==> a in multiset(SortAlterations(list));
    assert forall a :: a in list <==> a in multiset(list);
  }

  /** The script that undoes the sorted alterations. */
  lemma StraightScript(list: seq<Alteration>, text: string)
    requires FitsSorted(list, |text|) && Telling(list, text)
    ensures var altered, script := AlterString(text, list), Swap(ScriptOf(SortAlterations(list), text, 0));
            && Clean(script, Characters(altered), Characters(text)) && Gapped(script) && Pieces(script) == |list|
            && Before(script) == altered && After(script) == text
  {
    var sorted, altered := SortAlterations(list), AlterString(text, list);
    SortMembers(list);
    SortLength(list);
    ScriptClean(sorted, text, 0, text, altered);
    ScriptGapped(sorted, text, 0);
    SwapClean(ScriptOf(sorted, text, 0), Characters(text), Characters(altered));
    SwapExchanges(ScriptOf(sorted, text, 0));
    ScriptBefore(sorted, text, 0);
    ScriptAfter(sorted, text, 0);
    assert text[0..] == text;
  }

  /** An alteration of the inverse can be told like the one it undoes. */
  lemma UndoingTold(list: seq<Alteration>, text: string, i: nat)
    requires FitsSorted(list, |text|) && Undone(list, text) && i < |list|
    requires Told(list[i], text, text, AlterString(text, list))
    ensures |Undoing(list, text)| == |list|
    ensures var a, altered := Undoing(list, text)[i], AlterString(text, list);
            Told(a, altered, altered, text) && altered[a.start..a.end] == list[i].replacement
  {
    var altered, undoing := AlterString(text, list), Undoing(list, text);
    SortedInRange(list, |text|);
    UndoingAt(list, text, i);
    SortedInRange(undoing, |altered|);
    assert undoing[i] in undoing;
    UndoingApplies(list, text, i);
    ToldBack(list[i], undoing[i], text, altered);
  }

  lemma ToldBack(x: Alteration, a: Alteration, text: string, altered: string)
    requires Told(x, text, text, altered)
    requires a.end == a.start + |x.replacement| <= |altered| && a.replacement == Removed(x, text)
    requires Slice(altered, a.start, a.end) == x.replacement
    ensures Told(a, altered, altered, text) && altered[a.start..a.end] == x.replacement
  {
  }

  lemma UndoingApplies(list: seq<Alteration>, text: string, i: nat)
    requires FitsSorted(list, |text|) && Undone(list, text) && i < |list|
    ensures Place(list, i) >= 0
    ensures Slice(AlterString(text, list), Place(list, i), Place(list, i) + |list[i].replacement|) ==
              list[i].replacement
  {
    SortedInRange(list, |text|);
    InverseAt(list, text, i);
    assert Inverse(list, text)[i] in Inverse(list, text);
    assert AsPatch(Inverse(list, text))[i] in AsPatch(Inverse(list, text));
  }

  /** The script of the inverse as it is. */
  lemma UndoingScript(list: seq<Alteration>, text: string)
    requires FitsSorted(list, |text|) && Telling(list, text) && Undone(list, text)
    ensures var altered, undoing := AlterString(text, list), SortAlterations(Undoing(list, text));
            var script := ScriptOf(undoing, altered, 0);
            && Clean(script, Characters(altered), Characters(text)) && Pieces(script) == |list|
            && Before(script) == altered && After(script) == text
  {
    var altered, undoing := AlterString(text, list), Undoing(list, text);
    SortedInRange(list, |text|);
    SortMembers(undoing);
    SortLength(undoing);
    if list == [] { InverseLength(list, text); }
    forall a <- SortAlterations(undoing) ensures Told(a, altered, altered, text) {
      var i :| 0 <= i < |undoing| && undoing[i] == a;
      UndoingLength(list, text);
      assert list[i] in list;
      UndoingTold(list, text, i);
    }
    UndoingLength(list, text);
    ScriptClean(SortAlterations(undoing), altered, 0, altered, text);
    ScriptBefore(SortAlterations(undoing), altered, 0);
    ScriptAfter(SortAlterations(undoing), altered, 0);
    assert altered[0..] == altered;
  }

  lemma UndoingLength(list: seq<Alteration>, text: string)
    requires InRange(list, |text|) && Proper(Inverse(list, text))
    ensures |Undoing(list, text)| == |list|
  {
    if list == [] { InverseLength(list, text); } else { UndoingAt(list, text, 0); }
  }

  /** The restored text tells that the inverse, sorted, is that of the sorted patch. */
  lemma SameInverse(list: seq<Alteration>, text: string)
    requires FitsSorted(list, |text|) && Telling(list, text) && Undone(list, text)
    ensures Proper(Inverse(SortAlterations(list), text))
    ensures AsPatch(Inverse(SortAlterations(list), text)) ==
              ToPatch(SortAlterations(Undoing(list, text)), AlterString(text, list))
  {
    var altered, undoing := AlterString(text, list), SortAlterations(Undoing(list, text));
    var straight, script := Swap(ScriptOf(SortAlterations(list), text, 0)), ScriptOf(undoing, altered, 0);
    StraightScript(list, text);
    UndoingScript(list, text);
    ScriptUnique(straight, script, Characters(altered), Characters(text));
    OrderedUndoing(SortAlterations(list), text);
    ScriptIsPatch(undoing, altered, 0);
  }

  /** A hunk is undone at its rank. */
  lemma HunkTells(list: seq<Alteration>, text: string, i: nat)
    requires FitsSorted(list, |text|) && Telling(list, text) && Undone(list, text) && i < |list|
    ensures |Undoing(list, text)| == |list| == |Inverse(SortAlterations(list), text)| == |Inverse(list, text)|
    ensures Rank(Undoing(list, text), i) == Rank(list, i)
    ensures Inverse(list, text)[i] == Inverse(SortAlterations(list), text)[Rank(list, i)]
  {
    var altered, sorted, undoing := AlterString(text, list), SortAlterations(list), Undoing(list, text);
    SortedInRange(list, |text|);
    UndoingLength(list, text);
    SameInverse(list, text);
    RankSorts(undoing, i);
    var k := Rank(undoing, i);
    var j := RankOnto(list, k);
    assert list[i] in list;
    UndoingTold(list, text, i);
    UndoingAt(list, text, i);
    InverseAt(list, text, i);
    SortedInverseAt(list, text, j);
    assert AsPatch(Inverse(sorted, text))[k] == ToPatch(SortAlterations(undoing), altered)[k];
    assert i == j;
  }

  /** If the inverse restores a telling edit, it undoes every hunk where it belongs. */
  lemma UndoneTells(list: seq<Alteration>, text: string)
    requires FitsSorted(list, |text|) && Telling(list, text) && Undone(list, text)
    ensures InverseAgrees(list, text)
  {
    SortedInRange(list, |text|);
    SortLength(list);
    UndoingLength(list, text);
    InverseLength(list, text);
    InverseLength(SortAlterations(list), text);
    forall i | 0 <= i < |list|
      ensures Inverse(list, text)[i] == Inverse(SortAlterations(list), text)[Rank(list, i)]
      ensures Rank(Undoing(list, text), i) == Rank(list, i)
    {
      HunkTells(list, text, i);
    }
  }

  /** For telling edits, the inverse restores the text if and only if growths agree and ties are in order. */
  lemma UndoneExactly(list: seq<Alteration>, text: string)
    requires FitsSorted(list, |text|) && Telling(list, text)
    ensures Undone(list, text) <==> Undoable(list)
  {
    InverseAgreesExactly(list, text);
    if Undoable(list) { UndoableRestores(list, text); }
    if Undone(list, text) { UndoneTells(list, text); }
  }

  // ----- Examples -----

  lemma AheadOne(x: Alteration, a: Alteration, strict: bool)
    ensures Ahead([x], a, strict) == if Goes(x, a, strict) then [x] else []
    ensures Grows([x]) == Growth(x)
  {
    assert [x][1..] == [];
  }

  lemma SortTwo(a: Alteration, b: Alteration)
    requires !Precedes(a, b)
    ensures SortAlterations([a, b]) == [b, a]
  {
    assert [a, b][1..] == [b] && [b][1..] == [] && SortAlterations([b]) == [b];
    assert Insert(a, []) == [a] && Insert(a, [b]) == [b, a];
  }

  lemma GrowTwo(a: Alteration, b: Alteration)
    requires !Precedes(a, b)
    ensures GrowthAgrees([a, b]) <==> Growth(a) == 0 && Growth(b) == 0
  {
    var list := [a, b];
    assert list[1..] == [b] && list[..0] == [] && list[..1] == [a] && list[2..] == [];
    AheadOne(b, a, true);
    AheadOne(a, b, false);
    assert SortedAhead(list, 0) == [b] && SortedAhead(list, 1) == [];
    assert Grows(list[..0]) == 0 && Grows(list[..1]) == Growth(a) && Grows(SortedAhead(list, 1)) == 0;
    if Growth(a) == 0 && Growth(b) == 0 {
      forall i | 0 <= i < |list| ensures Grows(list[..i]) == Grows(SortedAhead(list, i)) {
        assert i == 0 || i == 1;
      }
    }
  }

  lemma AlterLast(s: string, a: Alteration, position: nat)
    requires position <= a.start <= a.end <= |s|
    ensures Fits([a], position, |s|)
    ensures AlterFrom(s, [a], position) == s[position..a.start] + a.replacement + s[a.end..]
  {
    assert [a][1..] == [] && Chained([], a.end) && End([], a.end) == a.end;
    assert AlterFrom(s, [], a.end) == s[a.end..];
  }

  /** Two alterations, the second of which comes before the first. */
  lemma AlterTwo(a: Alteration, b: Alteration, s: string)
    requires b.start <= b.end <= a.start <= a.end <= |s| && !Precedes(a, b)
    ensures FitsSorted([a, b], |s|)
    ensures AlterString(s, [a, b]) == s[..b.start] + b.replacement + (s[b.end..a.start] + a.replacement + s[a.end..])
  {
    SortTwo(a, b);
    assert [b, a][1..] == [a];
    AlterLast(s, a, b.end);
  }

  lemma InvertTwo(a: Alteration, b: Alteration, s: string)
    requires b.start <= b.end <= a.start <= a.end <= |s|
    ensures Inverse([a, b], s)
         == [(a.replacement, s[a.start..a.end], a.start), (b.replacement, s[b.start..b.end], b.start + Growth(a))]
  {
    assert [a, b][..0] == [] && [a, b][..1] == [a];
    AheadOne(a, b, false);
    InverseAt([a, b], s, 0);
    InverseAt([a, b], s, 1);
  }

  lemma TwoTell(a: Alteration, b: Alteration, s: string, t: string)
    requires FitsSorted([a, b], |s|) && AlterString(s, [a, b]) == t && !Precedes(a, b) && b.end < a.start
    requires Told(a, s, s, t) && Told(b, s, s, t) && a.replacement != b.replacement
    ensures Telling([a, b], s) && (Undone([a, b], s) <==> Undoable([a, b]))
  {
    SortTwo(a, b);
    UndoneExactly([a, b], s);
  }

  /** An insertion listed before a deletion that it is behind: applied correctly, but not undone. Order does matter. */
  lemma InvertNeedsOrder()
    ensures var list, text := [Alteration(3, 3, "xy"), Alteration(0, 1, "")], "abc";
            && FitsSorted(list, |text|) && Telling(list, text) && AlterString(text, list) == "bcxy"
            && !Undoable(list) && !Undone(list, text)
  {
    var a, b, text := Alteration(3, 3, "xy"), Alteration(0, 1, ""), "abc";
    TwoStrings(text);
    NotUndone(a, b, text, "bcxy");
  }

  lemma NotUndone(a: Alteration, b: Alteration, s: string, t: string)
    requires b.start <= b.end < a.start <= a.end <= |s| && a.replacement != b.replacement
    requires Growth(a) != 0 || Growth(b) != 0
    requires s[..b.start] + b.replacement + (s[b.end..a.start] + a.replacement + s[a.end..]) == t
    requires Told(a, s, s, t) && Told(b, s, s, t)
    ensures FitsSorted([a, b], |s|) && Telling([a, b], s) && AlterString(s, [a, b]) == t
    ensures !Undoable([a, b]) && !Undone([a, b], s)
  {
    AlterTwo(a, b, s);
    GrowTwo(a, b);
    TwoTell(a, b, s, t);
  }

  lemma TwoStrings(text: string)
    requires text == "abc"
    ensures text[..0] + "" + (text[1..3] + "xy" + text[3..]) == "bcxy" && text[0..1] == "a" && text[3..3] == ""
    ensures Told(Alteration(3, 3, "xy"), text, text, "bcxy") && Told(Alteration(0, 1, ""), text, text, "bcxy")
  {
  }

  /** How the source takes a part of a text: negative positions count from the end. */
  function CountingSlice(s: string, from: int, to: int): string {
    var i, j := if from < 0 then |s| + from else from, if to < 0 then |s| + to else to;
    Slice(s, if i < 0 then 0 else i, if j < 0 then 0 else j)
  }

  /** The last characters have the positions from -1 on, and those that there would be before the text are none. */
  lemma CountedFromEnd(s: string, from: int, to: int)
    ensures 0 <= from <= to <= |s| ==> CountingSlice(s, from, to) == s[from..to]
    ensures -|s| <= from <= to < 0 ==> CountingSlice(s, from, to) == s[|s| + from..|s| + to]
    ensures from <= -|s| ==> CountingSlice(s, from, to) == CountingSlice(s, 0, to)
    ensures to <= -|s| ==> CountingSlice(s, from, to) == ""
  {
  }

  /**
   A hunk at a negative position does not apply where it belongs, but since the source counts it from the end of the
   text, and the text happens to be as long as that, it is applied there after all.
   */
  lemma UndoneByCounting()
    ensures var list, text, altered := [Alteration(2, 4, ""), Alteration(0, 1, "y")], "abcd", "yb";
            && FitsSorted(list, |text|) && Telling(list, text) && AlterString(text, list) == altered
            && Inverse(list, text) == [("", "cd", 2), ("y", "a", -2)] && !Undone(list, text)
    ensures CountingSlice("yb", -2, -1) == "y"
    ensures CountingSlice("yb", 0, -2) + "a" + (CountingSlice("yb", -1, 2) + "cd" + CountingSlice("yb", 2, 2)) == "abcd"
  {
    var a, b := Alteration(2, 4, ""), Alteration(0, 1, "y");
    CountedStrings("abcd", "yb");
    NotUndone(a, b, "abcd", "yb");
    InvertTwo(a, b, "abcd");
  }

  lemma CountedStrings(s: string, t: string)
    requires s == "abcd" && t == "yb"
    ensures s[..0] + "y" + (s[1..2] + "" + s[4..]) == t && s[2..4] == "cd" && s[0..1] == "a"
    ensures Told(Alteration(2, 4, ""), s, s, t) && Told(Alteration(0, 1, "y"), s, s, t)
    ensures CountingSlice(t, -2, -1) == "y"
    ensures CountingSlice(t, 0, -2) + "a" + (CountingSlice(t, -1, 2) + "cd" + CountingSlice(t, 2, 2)) == s
  {
    assert CountingSlice(t, 0, -2) == "" && CountingSlice(t, -1, 2) == "b" && CountingSlice(t, 2, 2) == "";
  }

  /** Replacements of the same length are undone in any order. */
  lemma OutOfOrderUndone()
    ensures var list, text := [Alteration(3, 4, "x"), Alteration(0, 1, "y")], "abcd";
            FitsSorted(list, |text|) && SortAlterations(list) != list && Undoable(list) && Undone(list, text)
  {
    var a, b := Alteration(3, 4, "x"), Alteration(0, 1, "y");
    SortTwo(a, b);
    AlterTwo(a, b, "abcd");
    GrowTwo(a, b);
    UndoableRestores([a, b], "abcd");
  }

  /** Where characters cannot be told apart, a hunk in the wrong place may happen to restore the text. */
  lemma UndoneByChance()
    ensures var list, text := [Alteration(2, 2, "a"), Alteration(0, 0, "a")], "aa";
            FitsSorted(list, |text|) && !Undoable(list) && Undone(list, text)
  {
    var a, b, c, d := Alteration(2, 2, "a"), Alteration(0, 0, "a"), Alteration(2, 3, ""), Alteration(1, 2, "");
    FourStrings("aa", "aaaa");
    AlterTwo(a, b, "aa");
    AlterTwo(c, d, "aaaa");
    GrowTwo(a, b);
    UndoneTwo(a, b, c, d, "aa", "aaaa");
  }

  lemma UndoneTwo(a: Alteration, b: Alteration, c: Alteration, d: Alteration, s: string, t: string)
    requires b.start <= b.end <= a.start <= a.end <= |s| && !Precedes(a, b)
    requires FitsSorted([a, b], |s|) && AlterString(s, [a, b]) == t
    requires d.start <= d.end <= c.start <= c.end <= |t|
    requires FitsSorted([c, d], |t|) && AlterString(t, [c, d]) == s
    requires c == Alteration(a.start, a.start + |a.replacement|, s[a.start..a.end])
    requires t[c.start..c.end] == a.replacement
    requires d.start == b.start + Growth(a) && d.end == d.start + |b.replacement|
    requires d.replacement == s[b.start..b.end] && t[d.start..d.end] == b.replacement
    ensures Undone([a, b], s)
  {
    var h, g := Hunk(a.replacement, c.replacement, c.start), Hunk(b.replacement, d.replacement, d.start);
    InvertTwo(a, b, s);
    TwoHunks(h, g, Inverse([a, b], s));
    HunkApplies(h, c, t);
    HunkApplies(g, d, t);
    TwoRestore(h, g, t, s);
    UndoneBy([a, b], s, [h, g]);
  }

  lemma HunkApplies(h: Hunk, c: Alteration, t: string)
    requires c.start <= c.end <= |t| && t[c.start..c.end] == h.remove
    requires h.position == c.start && h.insert == c.replacement
    ensures Applies(h, t) && ToAlteration(h) == c
  {
  }

  lemma UndoneBy(list: seq<Alteration>, text: string, patch: Patch)
    requires FitsSorted(list, |text|) && Proper(Inverse(list, text)) && AsPatch(Inverse(list, text)) == patch
    requires Restores(patch, AlterString(text, list), text)
    ensures Undone(list, text)
  {
  }

  lemma TwoHunks(h: Hunk, g: Hunk, hunks: seq<(string, string, int)>)
    requires hunks == [(h.remove, h.insert, h.position as int), (g.remove, g.insert, g.position as int)]
    ensures Proper(hunks) && AsPatch(hunks) == [h, g]
  {
  }

  lemma TwoRestore(h: Hunk, g: Hunk, t: string, s: string)
    requires Applies(h, t) && Applies(g, t)
    requires FitsSorted([ToAlteration(h), ToAlteration(g)], |t|)
    requires AlterString(t, [ToAlteration(h), ToAlteration(g)]) == s
    ensures Restores([h, g], t, s)
  {
    TwoAlterations(h, g);
  }

  lemma FourStrings(s: string, t: string)
    requires s == "aa" && t == "aaaa"
    ensures s[..0] + "a" + (s[0..2] + "a" + s[2..]) == t && s[2..2] == s[0..0] == ""
    ensures t[..1] + "" + (t[2..2] + "" + t[3..]) == s && t[2..3] == t[1..2] == "a"
  {
  }

  lemma TwoAlterations(h: Hunk, g: Hunk)
    ensures PatchAlterations([h, g]) == [ToAlteration(h), ToAlteration(g)]
  {
    assert [h, g][1..] == [g] && [g][1..] == [] && PatchAlterations([g]) == [ToAlteration(g)];
  }

  // Deletions that touch, listed in the wrong order between alterations that make the growths agree.

  const Tangled: seq<Alteration> :=
    [Alteration(3, 4, ""), Alteration(1, 2, ""), Alteration(2, 2, "xy"), Alteration(0, 1, "")]

  lemma SortCons(a: Alteration, s: seq<Alteration>)
    ensures SortAlterations([a] + s) == Insert(a, SortAlterations(s))
  {
    assert ([a] + s)[1..] == s;
  }

  lemma InsertCons(a: Alteration, b: Alteration, s: seq<Alteration>)
    ensures Insert(a, [b] + s) == if Precedes(a, b) then [a, b] + s else [b] + Insert(a, s)
  {
    assert ([b] + s)[1..] == s;
  }

  lemma SortFour(a: Alteration, b: Alteration, c: Alteration, d: Alteration)
    requires !Precedes(a, b) && !Precedes(a, c) && !Precedes(a, d) && Precedes(b, c) && !Precedes(c, d)
    requires Precedes(d, b) || Precedes(b, d)
    ensures SortAlterations([a, b, c, d]) == if Precedes(b, d) then [b, d, c, a] else [d, b, c, a]
  {
    SortTwo(c, d);
    SortCons(b, [c, d]);
    SortCons(a, [b, c, d]);
    InsertCons(b, d, [c]);
    InsertCons(b, c, []);
    var x, y := if Precedes(b, d) then b else d, if Precedes(b, d) then d else b;
    assert SortAlterations([b, c, d]) == [x, y, c] by { assert [b] + [c, d] == [b, c, d]; }
    InsertCons(a, x, [y, c]);
    InsertCons(a, y, [c]);
    InsertCons(a, c, []);
    assert [a] + [b, c, d] == [a, b, c, d] && [x] + [y, c] == [x, y, c] && [y] + [c] == [y, c];
  }

  lemma AheadThree(x: Alteration, y: Alteration, z: Alteration, a: Alteration, strict: bool)
    ensures Grows(Ahead([x, y, z], a, strict))
         == (if Goes(x, a, strict) then Growth(x) else 0) + (if Goes(y, a, strict) then Growth(y) else 0)
          + if Goes(z, a, strict) then Growth(z) else 0
    ensures Grows([x, y, z]) == Growth(x) + Growth(y) + Growth(z)
  {
    AheadMiddle([x], y, [z], a, strict);
    AheadMiddle([x], z, [], a, strict);
    AheadOne(x, a, strict);
    GrowsMiddle([x], y, [z]);
    GrowsMiddle([x], z, []);
    assert [x] + [y] + [z] == [x, y, z] && [x] + [z] + [] == [x] + [z] && [x] + [] == [x];
  }

  lemma AheadTwo(x: Alteration, y: Alteration, a: Alteration, strict: bool)
    ensures Grows(Ahead([x, y], a, strict))
         == (if Goes(x, a, strict) then Growth(x) else 0) + if Goes(y, a, strict) then Growth(y) else 0
    ensures Grows([x, y]) == Growth(x) + Growth(y)
  {
    AheadMiddle([x], y, [], a, strict);
    AheadOne(x, a, strict);
    GrowsMiddle([x], y, []);
    assert [x] + [y] + [] == [x, y] && [x] + [] == [x];
  }

  lemma TangledGrowth(i: nat)
    requires i < 4
    ensures Grows(Tangled[..i]) == Grows(SortedAhead(Tangled, i)) == [0, -1, -2, 0][i]
  {
    GrowsAppend(Ahead(Tangled[..i], Tangled[i], false), Ahead(Tangled[i + 1..], Tangled[i], true));
    if i < 2 { FirstTangled(i); } else { LastTangled(i); }
  }

  lemma FirstTangled(i: nat)
    requires i < 2
    ensures Grows(Tangled[..i]) == [0, -1][i]
    ensures Grows(Ahead(Tangled[..i], Tangled[i], false)) + Grows(Ahead(Tangled[i + 1..], Tangled[i], true)) ==
              [0, -1][i]
  {
    var a, b, c, d := Tangled[0], Tangled[1], Tangled[2], Tangled[3];
    if i == 0 {
      AheadThree(b, c, d, a, true);
      assert Tangled[..0] == [] && Tangled[1..] == [b, c, d];
    } else {
      AheadOne(a, b, false);
      AheadTwo(c, d, b, true);
      assert Tangled[..1] == [a] && Tangled[2..] == [c, d];
    }
  }

  lemma LastTangled(i: nat)
    requires 2 <= i < 4
    ensures Grows(Tangled[..i]) == [-2, 0][i - 2]
    ensures Grows(Ahead(Tangled[..i], Tangled[i], false)) + Grows(Ahead(Tangled[i + 1..], Tangled[i], true)) ==
              [-2, 0][i - 2]
  {
    var a, b, c, d := Tangled[0], Tangled[1], Tangled[2], Tangled[3];
    if i == 2 {
      AheadTwo(a, b, c, false);
      AheadOne(d, c, true);
      assert Tangled[..2] == [a, b] && Tangled[3..] == [d];
    } else {
      AheadThree(a, b, c, d, false);
      assert Tangled[..3] == [a, b, c] && Tangled[4..] == [];
    }
  }

  lemma TangledFits(text: string)
    requires text == "abcd"
    ensures FitsSorted(Tangled, 4) && AlterString(text, Tangled) == "xyc"
  {
    var a, b, c, d := Tangled[0], Tangled[1], Tangled[2], Tangled[3];
    SortFour(a, b, c, d);
    TangledLast(text, a, c);
    assert [b, c, a][1..] == [c, a] && [d, b, c, a][1..] == [b, c, a];
    assert AlterFrom(text, [b, c, a], 1) == "xyc";
  }

  lemma TangledLast(text: string, a: Alteration, c: Alteration)
    requires text == "abcd" && a == Tangled[0] && c == Tangled[2]
    ensures Fits([c, a], 2, 4) && AlterFrom(text, [c, a], 2) == "xyc"
  {
    AlterLast(text, a, 2);
    assert [c, a][1..] == [a];
    assert text[2..3] + "" + text[4..] == "c";
  }

  /**
   Every hunk of the inverse is in its place, but the two insertions at the same place are made in the wrong order.
   */
  lemma TiesMatter()
    ensures FitsSorted(Tangled, 4) && GrowthAgrees(Tangled) && !TiesInOrder(Tangled)
    ensures HunksAgree(Tangled, "abcd") && !Undone(Tangled, "abcd")
  {
    var text := "abcd";
    TangledFits(text);
    forall i | 0 <= i < 4 ensures Grows(Tangled[..i]) == Grows(SortedAhead(Tangled, i)) {
      TangledGrowth(i);
    }
    HunksAgreeExactly(Tangled, text);
    TangledGrowth(1);
    TangledGrowth(3);
    assert Tied(Tangled, 1, 3);
    UndoingByRank(Tangled, text);
    TangledUndoing(text);
    UntanglingAlters("xyc");
  }

  const Untangling: seq<Alteration> :=
    [Alteration(3, 3, "d"), Alteration(0, 0, "b"), Alteration(0, 2, ""), Alteration(0, 0, "a")]

  lemma TangledUndoing(text: string)
    requires text == "abcd" && FitsSorted(Tangled, 4) && Proper(Inverse(Tangled, text))
    ensures Undoing(Tangled, text) == Untangling
  {
    SortedInRange(Tangled, |text|);
    UndoingLength(Tangled, text);
    forall i | 0 <= i < 4 ensures Undoing(Tangled, text)[i] == Untangling[i] {
      UndoingAt(Tangled, text, i);
      TangledPlace(text, i);
    }
  }

  lemma TangledPlace(text: string, i: nat)
    requires text == "abcd" && i < 4
    ensures Place(Tangled, i) == Untangling[i].start
    ensures |Tangled[i].replacement| == Untangling[i].end - Untangling[i].start
    ensures Removed(Tangled[i], text) == Untangling[i].replacement
  {
    TangledGrowth(i);
    TangledRemoved(text);
    if i == 0 { } else if i == 1 { } else if i == 2 { } else { assert i == 3; }
  }

  lemma TangledRemoved(text: string)
    requires text == "abcd"
    ensures Removed(Tangled[0], text) == "d" && Removed(Tangled[1], text) == "b"
    ensures Removed(Tangled[2], text) == "" && Removed(Tangled[3], text) == "a"
  {
  }

  lemma UntanglingAlters(altered: string)
    requires altered == "xyc"
    ensures FitsSorted(Untangling, 3) && AlterString(altered, Untangling)[0] == 'b'
  {
    var a, b, c, d := Untangling[0], Untangling[1], Untangling[2], Untangling[3];
    SortFour(a, b, c, d);
    AlterLast(altered, a, 2);
    assert [c, a][1..] == [a] && [d, c, a][1..] == [c, a] && [b, d, c, a][1..] == [d, c, a];
    assert Fits([d, c, a], 0, 3);
    assert AlterString(altered, Untangling) == AlterFrom(altered, [b, d, c, a], 0);
    assert AlterFrom(altered, [b, d, c, a], 0) == "b" + AlterFrom(altered, [d, c, a], 0);
  }
}
