/**
 When a patch that is not in ascending order can be undone.
 */
module EditorInverse {
  import opened Prelude
  import opened EditorText
  import opened EditorOrder

  /** Disjoint and in range, listed in any order. */
  predicate FitsSorted(list: seq<Alteration>, length: nat) { Fits(SortAlterations(list), 0, length) }

  predicate InRange(list: seq<Alteration>, length: nat) { forall a <- list :: a.start <= a.end <= length }

  lemma {:induction false} FitsInRange(list: seq<Alteration>, position: nat, length: nat)
    requires Fits(list, position, length)
    ensures InRange(list, length)
  {
    if list != [] {
      FitsWithin(list[1..], list[0].end, length);
      FitsInRange(list[1..], list[0].end, length);
      assert list == [list[0]] + list[1..];
    }
  }

  lemma SortedInRange(list: seq<Alteration>, length: nat)
    requires FitsSorted(list, length)
    ensures InRange(list, length) && InRange(SortAlterations(list), length)
  {
    FitsInRange(SortAlterations(list), 0, length);
    SortingSorts(list);
    forall a <- list ensures a.start <= a.end <= length {
      assert a in multiset(list);
      assert a in multiset(SortAlterations(list));
    }
  }

  // ----- The hunks of an inverse -----

  function Inverse(list: seq<Alteration>, text: string): seq<(string, string, int)> { InvertPatch(ToPatch(list, text)) }

  /** Where inverting puts the hunk of the i-th alteration. */
  function Place(list: seq<Alteration>, i: nat): int
    requires i < |list|
  {
    list[i].start + Grows(list[..i])
  }

  function Removed(a: Alteration, text: string): string { Slice(text, a.start, a.end) }

  lemma {:induction false} InvertFromAt(list: seq<Alteration>, text: string, offset: int, i: nat)
    requires InRange(list, |text|) && i < |list|
    ensures var inverse := InvertFrom(ToPatch(list, text), offset);
            && |inverse| == |list|
            && inverse[i] == (list[i].replacement, Removed(list[i], text), Place(list, i) + offset)
  {
    InvertHead(list, text, offset);
    if i > 0 {
      InvertFromAt(list[1..], text, offset + Growth(list[0]), i - 1);
      assert list[..i][1..] == list[1..][..i - 1];
    } else if |list| > 1 {
      InvertFromAt(list[1..], text, offset + Growth(list[0]), 0);
    }
  }

  lemma InvertHead(list: seq<Alteration>, text: string, offset: int)
    requires InRange(list, |text|) && list != []
    ensures InvertFrom(ToPatch(list, text), offset)
         == [(list[0].replacement, Removed(list[0], text), list[0].start + offset)]
          + InvertFrom(ToPatch(list[1..], text), offset + Growth(list[0]))
    ensures InRange(list[1..], |text|)
    ensures (|list| == 1 ==> InvertFrom(ToPatch(list[1..], text), offset + Growth(list[0])) == [])
  {
    var patch := ToPatch(list, text);
    assert list[0] in list;
    assert patch[1..] == ToPatch(list[1..], text);
  }

  lemma InverseAt(list: seq<Alteration>, text: string, i: nat)
    requires InRange(list, |text|) && i < |list|
    ensures |Inverse(list, text)| == |list|
    ensures Inverse(list, text)[i] == (list[i].replacement, Removed(list[i], text), Place(list, i))
  {
    InvertFromAt(list, text, 0, i);
  }

  lemma InverseLength(list: seq<Alteration>, text: string)
    requires InRange(list, |text|)
    ensures |Inverse(list, text)| == |list|
  {
    if list != [] { InverseAt(list, text, 0); } else { assert ToPatch(list, text) == []; }
  }

  /** Every hunk of the inverse is the one that the inverse of the sorted patch has for the same alteration. */
  ghost predicate HunksAgree(list: seq<Alteration>, text: string) {
    var inverse, sorted := Inverse(list, text), Inverse(SortAlterations(list), text);
    && |inverse| == |sorted| == |list|
    && forall i :: 0 <= i < |list| ==> inverse[i] == sorted[Rank(list, i)]
  }

  /** What is listed before an alteration makes the text as much longer as what is sorted before it. */
  predicate GrowthAgrees(list: seq<Alteration>) {
    forall i :: 0 <= i < |list| ==> Grows(list[..i]) == Grows(SortedAhead(list, i))
  }

  /** The inverse of the i-th alteration, among the sorted ones. */
  lemma SortedInverseAt(list: seq<Alteration>, text: string, i: nat)
    requires FitsSorted(list, |text|) && i < |list|
    ensures |SortAlterations(list)| == |list| && |Inverse(SortAlterations(list), text)| == |list|
    ensures Inverse(SortAlterations(list), text)[Rank(list, i)]
         == (list[i].replacement, Removed(list[i], text), list[i].start + Grows(SortedAhead(list, i)))
  {
    RankSorts(list, i);
    SortedInRange(list, |text|);
    InverseAt(SortAlterations(list), text, Rank(list, i));
  }

  /** The hunks agree if and only if the growths do. */
  lemma HunksAgreeExactly(list: seq<Alteration>, text: string)
    requires FitsSorted(list, |text|)
    ensures HunksAgree(list, text) <==> GrowthAgrees(list)
  {
    SortedInRange(list, |text|);
    SortLength(list);
    InverseLength(list, text);
    InverseLength(SortAlterations(list), text);
    forall i | 0 <= i < |list|
      ensures Inverse(list, text)[i] == Inverse(SortAlterations(list), text)[Rank(list, i)]
         <==> Grows(list[..i]) == Grows(SortedAhead(list, i))
    {
      InverseAt(list, text, i);
      SortedInverseAt(list, text, i);
    }
  }

  // ----- The order of an inverse -----

  predicate Proper(hunks: seq<(string, string, int)>) { forall h <- hunks :: h.2 >= 0 }

  /** The alterations that an inverse makes. */
  function Undoing(list: seq<Alteration>, text: string): seq<Alteration>
    requires Proper(Inverse(list, text))
  {
    PatchAlterations(AsPatch(Inverse(list, text)))
  }

  lemma UndoingAt(list: seq<Alteration>, text: string, i: nat)
    requires InRange(list, |text|) && Proper(Inverse(list, text)) && i < |list|
    ensures Place(list, i) >= 0 && |Undoing(list, text)| == |list|
    ensures Undoing(list, text)[i]
         == Alteration(Place(list, i), Place(list, i) + |list[i].replacement|, Removed(list[i], text))
  {
    InverseAt(list, text, i);
    assert Inverse(list, text)[i] in Inverse(list, text);
    PatchAlterationsAt(AsPatch(Inverse(list, text)), i);
  }

  /** Alterations that are in order have an inverse in order, which restores the text. */
  lemma OrderedUndoing(list: seq<Alteration>, text: string)
    requires Fits(list, 0, |text|)
    ensures Proper(Inverse(list, text))
    ensures AlterIfFits(AlterFrom(text, list, 0), Undoing(list, text), 0) == Some(text)
    ensures AsPatch(Inverse(list, text)) == ScriptPatch(Swap(ScriptOf(list, text, 0)), 0)
    ensures forall h <- AsPatch(Inverse(list, text)) :: Applies(h, AlterFrom(text, list, 0))
  {
    var script, altered := ScriptOf(list, text, 0), AlterFrom(text, list, 0);
    UndoingSpells(list, text);
    ScriptIsPatch(list, text, 0);
    SwapInverts(script, 0, 0);
    ScriptAlters(altered, 0, Swap(script));
    var patch := ScriptPatch(Swap(script), 0);
    forall h <- patch ensures Applies(h, altered) {
      var i :| 0 <= i < |patch| && h == patch[i];
      ScriptApplies(altered, 0, Swap(script), i);
    }
  }

  lemma UndoingSpells(list: seq<Alteration>, text: string)
    requires Fits(list, 0, |text|)
    ensures var script := Swap(ScriptOf(list, text, 0));
            Spells(AlterFrom(text, list, 0), 0, script) && After(script) == text
  {
    var altered := AlterFrom(text, list, 0);
    ScriptBefore(list, text, 0);
    ScriptAfter(list, text, 0);
    SwapExchanges(ScriptOf(list, text, 0));
    assert text[0..] == text && altered[0..] == altered;
  }

  /** Sorting the inverse puts its hunks in the order in which sorting puts the alterations. */
  ghost predicate OrdersAgree(list: seq<Alteration>, text: string) {
    && Proper(Inverse(list, text)) && |Undoing(list, text)| == |list|
    && forall i :: 0 <= i < |list| ==> Rank(Undoing(list, text), i) == Rank(list, i)
  }

  /** No two deletions that leave nothing between them are listed in the wrong order. */
  predicate TiesInOrder(list: seq<Alteration>) {
    forall i, j :: 0 <= i < j < |list| && !Precedes(list[i], list[j]) ==> !Tied(list, i, j)
  }

  predicate Tied(list: seq<Alteration>, i: nat, j: nat)
    requires i < |list| && j < |list|
  {
    list[i].replacement == "" && list[j].replacement == "" && Place(list, i) == Place(list, j)
  }

  /** When the growths agree, the sorted inverse has the hunks of the inverse. */
  lemma UndoingByRank(list: seq<Alteration>, text: string)
    requires FitsSorted(list, |text|) && GrowthAgrees(list)
    ensures Proper(Inverse(list, text)) && Proper(Inverse(SortAlterations(list), text))
    ensures |Undoing(list, text)| == |Undoing(SortAlterations(list), text)| == |list|
    ensures forall i :: 0 <= i < |list| ==>
              Rank(list, i) < |list| && Undoing(list, text)[i] == Undoing(SortAlterations(list), text)[Rank(list, i)]
  {
    var sorted := SortAlterations(list);
    HunksAgreeExactly(list, text);
    OrderedUndoing(sorted, text);
    SortedInRange(list, |text|);
    SortLength(list);
    InverseLength(list, text);
    forall h <- Inverse(list, text) ensures h.2 >= 0 {
      var i :| 0 <= i < |list| && h == Inverse(list, text)[i];
      assert h in Inverse(sorted, text);
    }
    UndoingLengths(list, text);
    forall i | 0 <= i < |list|
      ensures Rank(list, i) < |list| && Undoing(list, text)[i] == Undoing(sorted, text)[Rank(list, i)]
    {
      UndoingRanked(list, text, i);
    }
  }

  lemma UndoingLengths(list: seq<Alteration>, text: string)
    requires FitsSorted(list, |text|)
    requires Proper(Inverse(list, text)) && Proper(Inverse(SortAlterations(list), text))
    ensures |Undoing(list, text)| == |Undoing(SortAlterations(list), text)| == |list|
  {
    SortedInRange(list, |text|);
    SortLength(list);
    InverseLength(list, text);
    InverseLength(SortAlterations(list), text);
    if list != [] {
      UndoingAt(list, text, 0);
      UndoingAt(SortAlterations(list), text, 0);
    }
  }

  lemma UndoingRanked(list: seq<Alteration>, text: string, i: nat)
    requires FitsSorted(list, |text|) && GrowthAgrees(list) && i < |list|
    requires Proper(Inverse(list, text)) && Proper(Inverse(SortAlterations(list), text))
    ensures |Undoing(list, text)| == |Undoing(SortAlterations(list), text)| == |list| && Rank(list, i) < |list|
    ensures Undoing(list, text)[i] == Undoing(SortAlterations(list), text)[Rank(list, i)]
  {
    SortedInRange(list, |text|);
    RankSorts(list, i);
    UndoingLengths(list, text);
    UndoingAt(list, text, i);
    UndoingAt(SortAlterations(list), text, Rank(list, i));
  }

  lemma {:induction false} ChainedPairs(s: seq<Alteration>, position: nat, i: nat, j: nat)
    requires Chained(s, position) && i < j < |s|
    ensures position <= s[i].start && s[i].end <= s[j].start
  {
    if i > 0 {
      ChainedPairs(s[1..], s[0].end, i - 1, j - 1);
    } else {
      ChainedStarts(s[1..], s[0].end, j - 1);
    }
  }

  lemma {:induction false} ChainedStarts(s: seq<Alteration>, position: nat, j: nat)
    requires Chained(s, position) && j < |s|
    ensures position <= s[j].start <= s[j].end
  {
    if j > 0 { ChainedStarts(s[1..], s[0].end, j - 1); }
  }

  /** Two hunks compare like their alterations, unless they are tied and listed in the wrong order. */
  lemma PairsAlike(list: seq<Alteration>, text: string, i: nat, j: nat)
    requires FitsSorted(list, |text|) && GrowthAgrees(list) && i < j < |list|
    ensures Proper(Inverse(list, text)) && |Undoing(list, text)| == |list|
    ensures (Precedes(list[i], list[j]) <==> Precedes(Undoing(list, text)[i], Undoing(list, text)[j]))
       <==> (Precedes(list[i], list[j]) || !Tied(list, i, j))
  {
    var sorted := SortAlterations(list);
    UndoingByRank(list, text);
    OrderedUndoing(sorted, text);
    SortedInRange(list, |text|);
    UndoingAt(list, text, i);
    UndoingAt(list, text, j);
    RankOrder(list, i, j);
    var ri, rj := Rank(list, i), Rank(list, j);
    if ri < rj {
      ChainedPairs(Undoing(sorted, text), 0, ri, rj);
      ChainedStarts(Undoing(sorted, text), 0, rj);
    } else {
      ChainedPairs(Undoing(sorted, text), 0, rj, ri);
    }
  }

  lemma OrdersAgreeExactly(list: seq<Alteration>, text: string)
    requires FitsSorted(list, |text|) && GrowthAgrees(list)
    ensures OrdersAgree(list, text) <==> TiesInOrder(list)
  {
    UndoingByRank(list, text);
    if TiesInOrder(list) { TiesGiveOrder(list, text); }
    if OrdersAgree(list, text) { OrderGivesTies(list, text); }
  }

  lemma TiesGiveOrder(list: seq<Alteration>, text: string)
    requires FitsSorted(list, |text|) && GrowthAgrees(list) && TiesInOrder(list)
    requires Proper(Inverse(list, text)) && |Undoing(list, text)| == |list|
    ensures OrdersAgree(list, text)
  {
    var undoing := Undoing(list, text);
    forall i, j | 0 <= i < j < |list| ensures Precedes(list[i], list[j]) <==> Precedes(undoing[i], undoing[j]) {
      PairsAlike(list, text, i, j);
    }
    forall i | 0 <= i < |list| ensures Rank(undoing, i) == Rank(list, i) {
      RanksAlike(list, undoing, i);
    }
  }

  lemma OrderGivesTies(list: seq<Alteration>, text: string)
    requires FitsSorted(list, |text|) && GrowthAgrees(list) && OrdersAgree(list, text)
    ensures TiesInOrder(list)
  {
    forall i, j | 0 <= i < j < |list| && !Precedes(list[i], list[j]) ensures !Tied(list, i, j) {
      PairsAlike(list, text, i, j);
      RankOrder(list, i, j);
      RankOrder(Undoing(list, text), i, j);
    }
  }

  // ----- Undoing -----

  /**
   The inverse of the patch, at no negative position, applies cleanly to the altered text and restores the original.
   */
  predicate Undone(list: seq<Alteration>, text: string)
    requires FitsSorted(list, |text|)
  {
    Proper(Inverse(list, text)) && Restores(AsPatch(Inverse(list, text)), AlterString(text, list), text)
  }

  /** What listing alterations out of order must not disturb. */
  predicate Undoable(list: seq<Alteration>) { GrowthAgrees(list) && TiesInOrder(list) }

  /** The inverse does to every alteration what the inverse of the sorted patch does. */
  ghost predicate InverseAgrees(list: seq<Alteration>, text: string) {
    HunksAgree(list, text) && OrdersAgree(list, text)
  }

  /** Inverting a patch agrees with inverting it sorted if and only if growths agree and ties are in order. */
  lemma InverseAgreesExactly(list: seq<Alteration>, text: string)
    requires FitsSorted(list, |text|)
    ensures InverseAgrees(list, text) <==> Undoable(list)
  {
    HunksAgreeExactly(list, text);
    if GrowthAgrees(list) { OrdersAgreeExactly(list, text); }
  }

  /** Then it restores the text. */
  lemma UndoableRestores(list: seq<Alteration>, text: string)
    requires FitsSorted(list, |text|) && Undoable(list)
    ensures Undone(list, text)
  {
    var sorted, altered := SortAlterations(list), AlterString(text, list);
    UndoingByRank(list, text);
    OrderedUndoing(sorted, text);
    SortedUndoing(list, text);
    HunksAgreeExactly(list, text);
    SameApply(AsPatch(Inverse(list, text)), AsPatch(Inverse(sorted, text)), altered,
              seq(|list|, i requires 0 <= i < |list| => Rank(list, i)));
  }

  lemma SameApply(patch: Patch, other: Patch, text: string, at: seq<nat>)
    requires forall h <- other :: Applies(h, text)
    requires |at| == |patch| && forall i :: 0 <= i < |at| ==> at[i] < |other| && patch[i] == other[at[i]]
    ensures forall h <- patch :: Applies(h, text)
  {
  }

  lemma SortedUndoing(list: seq<Alteration>, text: string)
    requires FitsSorted(list, |text|) && Undoable(list)
    requires Proper(Inverse(list, text)) && Proper(Inverse(SortAlterations(list), text))
    ensures SortAlterations(Undoing(list, text)) == Undoing(SortAlterations(list), text)
  {
    UndoingByRank(list, text);
    TiesGiveOrder(list, text);
    SortedByRank(Undoing(list, text), Undoing(SortAlterations(list), text));
  }

  // ----- Ascending order -----

  lemma {:induction false} EverybodyAhead(list: seq<Alteration>, a: Alteration)
    requires forall x <- list :: Precedes(x, a)
    ensures Ahead(list, a, false) == list
  {
    if list != [] {
      assert list[0] in list && forall x <- list[1..] :: x in list;
      EverybodyAhead(list[1..], a);
    }
  }

  /** Alterations in ascending order can be undone. */
  lemma AscendingUndoable(list: seq<Alteration>, length: nat)
    requires Fits(list, 0, length)
    ensures FitsSorted(list, length) && SortAlterations(list) == list && Undoable(list)
  {
    ChainedIsSorted(list, 0);
    SortingSorts(list);
    forall i | 0 <= i < |list| ensures SortedAhead(list, i) == list[..i] {
      forall x <- list[..i] ensures Precedes(x, list[i]) {
        var k :| 0 <= k < i && x == list[k];
        SortedPairs(list, k, i);
      }
      EverybodyAhead(list[..i], list[i]);
      var rest := list[i + 1..];
      forall q | 0 <= q < |rest| ensures Precedes(list[i], rest[q]) {
        SortedPairs(list, i, i + 1 + q);
      }
      NobodyAhead(rest, list[i]);
    }
    forall i, j | 0 <= i < j < |list| ensures Precedes(list[i], list[j]) {
      SortedPairs(list, i, j);
    }
  }

  // ----- Both ways -----

  /** The patch turns one text into the other, and its inverse turns it back. */
  ghost predicate Reverses(patch: Patch, from: string, to: string) {
    && Restores(patch, from, to)
    && Proper(InvertPatch(patch)) && Restores(AsPatch(InvertPatch(patch)), to, from)
  }

  /** The patch of an edit does what the edit does. */
  lemma PatchRestores(list: seq<Alteration>, text: string)
    requires FitsSorted(list, |text|)
    ensures PatchAlterations(ToPatch(list, text)) == list
    ensures Restores(ToPatch(list, text), text, AlterString(text, list))
  {
    var patch := ToPatch(list, text);
    SortedInRange(list, |text|);
    if list != [] { PatchAlterationsAt(patch, 0); }
    forall i | 0 <= i < |list|
      ensures |PatchAlterations(patch)| == |list| && PatchAlterations(patch)[i] == list[i]
      ensures Applies(patch[i], text)
    {
      assert list[i] in list;
      PatchAlterationsAt(patch, i);
    }
  }

  /** The patch of an edit goes both ways if and only if the edit can be undone. */
  lemma EditReverses(list: seq<Alteration>, text: string)
    requires FitsSorted(list, |text|)
    ensures Reverses(ToPatch(list, text), text, AlterString(text, list)) <==> Undone(list, text)
  {
    PatchRestores(list, text);
  }
}
