/**
 Alterations that are not in ascending order.

 A text is altered in the same way in whatever order its alterations are listed, but a
 patch is inverted in the order in which it is listed.
 */
module EditorOrder {
  import opened Prelude
  import opened EditorText

  // ----- Who goes ahead of whom -----

  /** Those that sort ahead of an alteration; the strict ones do so wherever they are listed. */
  function Ahead(list: seq<Alteration>, a: Alteration, strict: bool): (r: seq<Alteration>)
    ensures |r| <= |list|
  {
    if list == [] then []
    else
      var x := list[0];
      (if Goes(x, a, strict) then [x] else []) + Ahead(list[1..], a, strict)
  }

  predicate Goes(x: Alteration, a: Alteration, strict: bool) { if strict then !Precedes(a, x) else Precedes(x, a) }

  /** The alterations that are sorted ahead of the i-th one. */
  function SortedAhead(list: seq<Alteration>, i: nat): (r: seq<Alteration>)
    requires i < |list|
    ensures |r| < |list|
  {
    Ahead(list[..i], list[i], false) + Ahead(list[i + 1..], list[i], true)
  }

  /** Where sorting puts the i-th alteration. */
  function Rank(list: seq<Alteration>, i: nat): nat
    requires i < |list|
  {
    |SortedAhead(list, i)|
  }

  function Growth(a: Alteration): int { |a.replacement| - (a.end - a.start) }

  /** How much longer the alterations make the text. */
  function Grows(list: seq<Alteration>): int { if list == [] then 0 else Growth(list[0]) + Grows(list[1..]) }

  lemma {:induction false} GrowsAppend(x: seq<Alteration>, y: seq<Alteration>)
    ensures Grows(x + y) == Grows(x) + Grows(y)
  {
    if x == [] {
      assert x + y == y;
    } else {
      assert (x + y)[1..] == x[1..] + y;
      GrowsAppend(x[1..], y);
    }
  }

  lemma {:induction false} AheadAppend(x: seq<Alteration>, y: seq<Alteration>, a: Alteration, strict: bool)
    ensures Ahead(x + y, a, strict) == Ahead(x, a, strict) + Ahead(y, a, strict)
  {
    if x == [] {
      assert x + y == y;
    } else {
      assert (x + y)[1..] == x[1..] + y;
      AheadAppend(x[1..], y, a, strict);
    }
  }

  /** One more in the middle. */
  lemma GrowsMiddle(x: seq<Alteration>, a: Alteration, y: seq<Alteration>)
    ensures Grows(x + [a] + y) == Growth(a) + Grows(x + y)
  {
    GrowsAppend(x + [a], y);
    GrowsAppend(x, [a]);
    GrowsAppend(x, y);
    assert [a][1..] == [];
  }

  lemma AheadMiddle(x: seq<Alteration>, b: Alteration, y: seq<Alteration>, a: Alteration, strict: bool)
    ensures var r, r1 := Ahead(x + [b] + y, a, strict), Ahead(x + y, a, strict);
            && |r| == |r1| + (if Goes(b, a, strict) then 1 else 0)
            && Grows(r) == Grows(r1) + if Goes(b, a, strict) then Growth(b) else 0
  {
    var r, r1 := Ahead(x, a, strict), Ahead(y, a, strict);
    AheadAppend(x + [b], y, a, strict);
    AheadAppend(x, [b], a, strict);
    AheadAppend(x, y, a, strict);
    assert [b][1..] == [];
    if Goes(b, a, strict) {
      assert Ahead([b], a, strict) == [b];
      GrowsMiddle(r, b, r1);
    } else {
      assert r + [] + r1 == r + r1;
    }
  }

  // ----- Sorting -----

  lemma {:induction false} SortedPairs(s: seq<Alteration>, i: nat, j: nat)
    requires Sorted(s) && i <= j < |s|
    ensures Precedes(s[i], s[j])
    decreases j
  {
    if i < j { SortedPairs(s, i, j - 1); }
  }

  /** An alteration is inserted behind those that are strictly ahead of it. */
  lemma {:induction false} InsertPlace(a: Alteration, s: seq<Alteration>)
    requires Sorted(s)
    ensures var p := |Ahead(s, a, true)|;
            && Insert(a, s) == s[..p] + [a] + s[p..] && Ahead(s, a, true) == s[..p]
            && forall q :: 0 <= q < |s| ==> (Precedes(a, s[q]) <==> q >= p)
  {
    if s != [] {
      if Precedes(a, s[0]) {
        forall q | 0 <= q < |s| ensures Precedes(a, s[q]) {
          SortedPairs(s, 0, q);
        }
        NobodyAhead(s, a);
      } else {
        assert forall i :: 0 <= i < |s[1..]| ==> s[1..][i] == s[i + 1];
        InsertPlace(a, s[1..]);
        BehindFirst(a, s[0], s[1..], |Ahead(s[1..], a, true)|);
        assert [s[0]] + s[1..] == s;
      }
    }
  }

  lemma BehindFirst(a: Alteration, x: Alteration, s: seq<Alteration>, p: nat)
    requires p <= |s| && !Precedes(a, x) && Insert(a, s) == s[..p] + [a] + s[p..] && Ahead(s, a, true) == s[..p]
    requires forall q :: 0 <= q < |s| ==> (Precedes(a, s[q]) <==> q >= p)
    ensures var t := [x] + s;
            && Insert(a, t) == t[..p + 1] + [a] + t[p + 1..] && Ahead(t, a, true) == t[..p + 1]
            && forall q :: 0 <= q < |t| ==> (Precedes(a, t[q]) <==> q >= p + 1)
  {
    var t := [x] + s;
    assert t[1..] == s;
    Parts(x, s, a, p);
    assert forall q :: 0 < q < |t| ==> t[q] == s[q - 1];
  }

  lemma Parts(x: Alteration, s: seq<Alteration>, a: Alteration, p: nat)
    requires p <= |s|
    ensures var t := [x] + s;
            && t[..p + 1] == [x] + s[..p] && t[p + 1..] == s[p..]
            && t[..p + 1] + [a] + t[p + 1..] == [x] + (s[..p] + [a] + s[p..])
  {
  }

  lemma {:induction false} NobodyAhead(s: seq<Alteration>, a: Alteration)
    requires forall q :: 0 <= q < |s| ==> Precedes(a, s[q])
    ensures Ahead(s, a, true) == []
  {
    if s != [] { NobodyAhead(s[1..], a); }
  }

  /** The list with an alteration inserted at some place. */
  predicate Inserted(s: seq<Alteration>, a: Alteration, p: nat, t: seq<Alteration>) {
    p <= |s| && t == s[..p] + [a] + s[p..]
  }

  lemma InsertedAhead(s: seq<Alteration>, b: Alteration, p: nat, t: seq<Alteration>, a: Alteration)
    requires Inserted(s, b, p, t)
    ensures var r, r1 := Ahead(t, a, true), Ahead(s, a, true);
            && |r| == |r1| + (if Goes(b, a, true) then 1 else 0)
            && Grows(r) == Grows(r1) + if Goes(b, a, true) then Growth(b) else 0
  {
    assert s[..p] + s[p..] == s;
    AheadMiddle(s[..p], b, s[p..], a, true);
  }

  lemma InsertedPrefix(s: seq<Alteration>, a: Alteration, p: nat, t: seq<Alteration>, r: nat)
    requires Inserted(s, a, p, t) && r < |s|
    ensures if p <= r then t[r + 1] == s[r] && Grows(t[..r + 1]) == Growth(a) + Grows(s[..r])
            else t[r] == s[r] && t[..r] == s[..r]
  {
    if p <= r {
      assert t[..r + 1] == s[..p] + [a] + s[p..r];
      assert s[..p] + s[p..r] == s[..r];
      GrowsMiddle(s[..p], a, s[p..r]);
    }
  }

  /** Sorting does not change who is ahead of an alteration, only their order. */
  lemma {:induction false} SortKeepsAhead(list: seq<Alteration>, a: Alteration)
    ensures var x, y := Ahead(SortAlterations(list), a, true), Ahead(list, a, true); |x| == |y| && Grows(x) == Grows(y)
  {
    if list != [] {
      SortKeepsAhead(list[1..], a);
      SortingSorts(list[1..]);
      InsertPlace(list[0], SortAlterations(list[1..]));
      InsertedAhead(SortAlterations(list[1..]), list[0], |Ahead(SortAlterations(list[1..]), list[0], true)|,
                    SortAlterations(list), a);
      assert Inserted(list[1..], list[0], 0, list);
      InsertedAhead(list[1..], list[0], 0, list, a);
    }
  }

  lemma SortLength(list: seq<Alteration>)
    ensures |SortAlterations(list)| == |list|
  {
    SortingSorts(list);
    assert |multiset(SortAlterations(list))| == |multiset(list)|;
  }

  /** The first alteration is inserted at its rank among the others, which are sorted. */
  lemma FirstInserted(list: seq<Alteration>)
    requires list != []
    ensures var s, p := SortAlterations(list[1..]), Rank(list, 0);
            && |s| == |list| - 1 && Inserted(s, list[0], p, SortAlterations(list))
            && Grows(s[..p]) == Grows(SortedAhead(list, 0))
            && forall q :: 0 <= q < |s| ==> (Precedes(list[0], s[q]) <==> q >= p)
  {
    assert list[..0] == [];
    assert SortedAhead(list, 0) == Ahead(list[1..], list[0], true);
    SortingSorts(list[1..]);
    SortLength(list[1..]);
    InsertPlace(list[0], SortAlterations(list[1..]));
    SortKeepsAhead(list[1..], list[0]);
  }

  /** The others have their ranks in the rest of the list, but for the first. */
  lemma NextRank(list: seq<Alteration>, i: nat)
    requires 0 < i < |list|
    ensures Rank(list, i) == Rank(list[1..], i - 1) + if Precedes(list[0], list[i]) then 1 else 0
    ensures Grows(SortedAhead(list, i)) ==
              Grows(SortedAhead(list[1..], i - 1)) + if Precedes(list[0], list[i]) then Growth(list[0]) else 0
  {
    var x, y := list[..i], list[i + 1..];
    assert x == [list[0]] + x[1..] && x[1..] == list[1..][..i - 1] && list[1..][i..] == y;
    var r, r1 := Ahead(x[1..], list[i], false), Ahead(y, list[i], true);
    assert [list[0]] + r + r1 == [list[0]] + (r + r1);
    assert [] + r == r;
    GrowsMiddle([], list[0], r + r1);
    assert [] + [list[0]] + (r + r1) == [list[0]] + (r + r1) && [] + (r + r1) == r + r1;
  }

  /** Sorting puts every alteration at its rank, behind those that are sorted ahead of it. */
  lemma {:induction false} RankSorts(list: seq<Alteration>, i: nat)
    requires i < |list|
    ensures |SortAlterations(list)| == |list|
    ensures SortAlterations(list)[Rank(list, i)] == list[i]
    ensures Grows(SortAlterations(list)[..Rank(list, i)]) == Grows(SortedAhead(list, i))
  {
    FirstInserted(list);
    if i == 0 {
      InsertedFirst(SortAlterations(list[1..]), list[0], Rank(list, 0), SortAlterations(list));
    } else {
      RankSorts(list[1..], i - 1);
      NextRank(list, i);
      InsertedPrefix(SortAlterations(list[1..]), list[0], Rank(list, 0), SortAlterations(list), Rank(list[1..], i - 1));
    }
  }

  lemma InsertedFirst(s: seq<Alteration>, a: Alteration, p: nat, t: seq<Alteration>)
    requires Inserted(s, a, p, t)
    ensures |t| == |s| + 1 && t[p] == a && t[..p] == s[..p]
  {
  }

  /** Ranks are in the order in which the alterations are sorted; equals stay as they are listed. */
  lemma {:induction false} RankOrder(list: seq<Alteration>, i: nat, j: nat)
    requires i < j < |list|
    ensures Precedes(list[i], list[j]) <==> Rank(list, i) < Rank(list, j)
    ensures Rank(list, i) != Rank(list, j)
  {
    NextPlace(list, j);
    if i > 0 {
      NextPlace(list, i);
      RankOrder(list[1..], i - 1, j - 1);
    }
  }

  /** Those behind the first move up by one. */
  lemma NextPlace(list: seq<Alteration>, i: nat)
    requires 0 < i < |list|
    ensures var p, r := Rank(list, 0), Rank(list[1..], i - 1);
            && Rank(list, i) == (if r >= p then r + 1 else r)
            && (Precedes(list[0], list[i]) <==> r >= p)
  {
    FirstInserted(list);
    NextRank(list, i);
    RankSorts(list[1..], i - 1);
  }

  /** Every place is the rank of some alteration. */
  lemma {:induction false} RankOnto(list: seq<Alteration>, k: nat) returns (i: nat)
    requires k < |list|
    ensures i < |list| && Rank(list, i) == k
  {
    FirstInserted(list);
    var p := Rank(list, 0);
    if k == p {
      i := 0;
    } else {
      var j := RankOnto(list[1..], if k < p then k else k - 1);
      i := j + 1;
      NextPlace(list, i);
    }
  }

  /** Two lists whose members compare alike. */
  predicate Alike(x: seq<Alteration>, y: seq<Alteration>) {
    && |x| == |y|
    && forall i, j :: 0 <= i < j < |x| ==> (Precedes(x[i], x[j]) <==> Precedes(y[i], y[j]))
  }

  lemma {:induction false} AheadAlike(x: seq<Alteration>, y: seq<Alteration>, a: Alteration, b: Alteration,
                                      strict: bool)
    requires |x| == |y| && forall k :: 0 <= k < |x| ==> Goes(x[k], a, strict) == Goes(y[k], b, strict)
    ensures |Ahead(x, a, strict)| == |Ahead(y, b, strict)|
  {
    if x != [] { AheadAlike(x[1..], y[1..], a, b, strict); }
  }

  lemma RanksAlike(x: seq<Alteration>, y: seq<Alteration>, i: nat)
    requires Alike(x, y) && i < |x|
    ensures Rank(x, i) == Rank(y, i)
  {
    AheadAlike(x[..i], y[..i], x[i], y[i], false);
    AheadAlike(x[i + 1..], y[i + 1..], x[i], y[i], true);
  }

  /** Lists of the same length that agree rank by rank are sorted into the same list. */
  lemma SortedByRank(list: seq<Alteration>, s: seq<Alteration>)
    requires |s| == |list| && forall i :: 0 <= i < |list| ==> Rank(list, i) < |s| && s[Rank(list, i)] == list[i]
    ensures SortAlterations(list) == s
  {
    SortLength(list);
    forall k | 0 <= k < |s| ensures SortAlterations(list)[k] == s[k] {
      var i := RankOnto(list, k);
      RankSorts(list, i);
    }
  }
}
