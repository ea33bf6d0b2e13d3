/**
 The undo history of the editor.

 The editor keeps the patches of all revisions and the number of the revision that is
 checked out. `texts` remembers, for the proof only, what the text of each revision was.
 */
module EditorHistory {
  import opened Prelude
  import opened EditorText
  import opened EditorInverse
  import opened EditorElement

  type Cursor = (nat, nat)
  datatype Revision = Revision(patch: Patch, cursor: Option<Cursor>, time: int)

  /** Every patch turns the text of the revision before it into the text of its own, and can be undone. */
  ghost predicate History(revisions: seq<Revision>, texts: seq<string>) {
    && |texts| == |revisions| + 1
    && forall i :: 0 <= i < |revisions| ==> Revises(revisions, texts, i)
  }

  ghost predicate Revises(revisions: seq<Revision>, texts: seq<string>, i: nat)
    requires i < |revisions| && |texts| == |revisions| + 1
  {
    Reverses(revisions[i].patch, texts[i], texts[i + 1])
  }

  /** The text after a patch; None if it conflicts. */
  function Applied(patch: Patch, text: string): Option<string> {
    var alterations := PatchAlterations(patch);
    if (forall h <- patch :: Applies(h, text)) && Fits(SortAlterations(alterations), 0, |text|)
    then Some(AlterString(text, alterations))
    else None
  }

  /** The first n patches applied to the base text, one after the other. */
  function Replay(base: string, revisions: seq<Revision>, n: nat): Option<string>
    requires n <= |revisions|
  {
    if n == 0 then Some(base)
    else
      match Replay(base, revisions, n - 1)
      case None => None
      case Some(text) => Applied(revisions[n - 1].patch, text)
  }

  /** The inverses of patches n-1 down to m applied to the text of revision n. */
  function Rewind(text: string, revisions: seq<Revision>, n: nat, m: nat): Option<string>
    requires m <= n <= |revisions|
    decreases n
  {
    if n == m then Some(text)
    else
      var inverse := InvertPatch(revisions[n - 1].patch);
      if exists h <- inverse :: h.2 < 0 then None
      else
        match Applied(AsPatch(inverse), text)
        case None => None
        case Some(before) => Rewind(before, revisions, n - 1, m)
  }

  /** The history can be replayed from the base text to every revision, without a conflict. */
  lemma {:induction false} HistoryReplays(revisions: seq<Revision>, texts: seq<string>, n: nat)
    requires History(revisions, texts) && n <= |revisions|
    ensures Replay(texts[0], revisions, n) == Some(texts[n])
  {
    if n > 0 {
      HistoryReplays(revisions, texts, n - 1);
      assert Revises(revisions, texts, n - 1);
    }
  }

  /** It can be rewound from every revision to every earlier one, without a conflict. */
  lemma {:induction false} HistoryRewinds(revisions: seq<Revision>, texts: seq<string>, n: nat, m: nat)
    requires History(revisions, texts) && m <= n <= |revisions|
    ensures Rewind(texts[n], revisions, n, m) == Some(texts[m])
    decreases n
  {
    if n > m {
      assert Revises(revisions, texts, n - 1);
      HistoryRewinds(revisions, texts, n - 1, m);
    }
  }

  function Clamp(to: int, last: int): int {
    var most := if to < last then to else last;
    if most > -1 then most else -1
  }

  /** A list with everything from some index on replaced by one element. */
  function Cut<T>(s: seq<T>, i: nat, x: T): (r: seq<T>)
    requires i <= |s|
    ensures |r| == i + 1 && r[..i] == s[..i] && r[i] == x
  {
    s[..i] + [x]
  }

  /** A list with one more element at some index. */
  function Spliced<T>(s: seq<T>, i: nat, x: T): (r: seq<T>)
    requires i <= |s|
    ensures |r| == |s| + 1 && r[..i] == s[..i] && r[i] == x && r[i + 1..] == s[i..]
  {
    s[..i] + [x] + s[i..]
  }

  lemma SpliceAtEnd<T>(s: seq<T>, i: nat, x: T)
    requires i <= |s|
    ensures Spliced(s[..i], i, x) == Cut(s, i, x)
  {
  }

  /** A new revision that changes the text replaces the revisions that could have been redone. */
  lemma CutHistory(revisions: seq<Revision>, texts: seq<string>, at: nat, revision: Revision, text: string)
    requires History(revisions, texts) && at <= |revisions| && Reverses(revision.patch, texts[at], text)
    ensures History(Cut(revisions, at, revision), Cut(texts, at + 1, text))
  {
    var r, t := Cut(revisions, at, revision), Cut(texts, at + 1, text);
    forall i | 0 <= i < |r| ensures Revises(r, t, i) {
      if i < at {
        assert Revises(revisions, texts, i);
      }
    }
  }

  /** A new revision that only moves the cursor keeps them. */
  lemma SpliceHistory(revisions: seq<Revision>, texts: seq<string>, at: nat, revision: Revision)
    requires History(revisions, texts) && at <= |revisions| && revision.patch == []
    ensures History(Spliced(revisions, at, revision), Spliced(texts, at + 1, texts[at]))
  {
    var r, t := Spliced(revisions, at, revision), Spliced(texts, at + 1, texts[at]);
    assert t[at] == t[at + 1] == texts[at];
    EmptyReverses(texts[at]);
    forall i | 0 <= i < |r| ensures Revises(r, t, i) {
      if i < at {
        assert Revises(revisions, texts, i);
      } else if i > at {
        assert Revises(revisions, texts, i - 1);
        assert r[i] == revisions[i - 1] && t[i] == texts[i - 1] && t[i + 1] == texts[i];
      }
    }
  }

  /** Either way. */
  lemma CommitHistory(revisions: seq<Revision>, texts: seq<string>, at: nat, revision: Revision, text: string)
    requires History(revisions, texts) && at <= |revisions| && Reverses(revision.patch, texts[at], text)
    requires revision.patch == [] ==> text == texts[at]
    ensures revision.patch == [] ==> History(Spliced(revisions, at, revision), Spliced(texts, at + 1, text))
    ensures revision.patch != [] ==>
              && Spliced(revisions[..at], at, revision) == Cut(revisions, at, revision)
              && Spliced(texts[..at + 1], at + 1, text) == Cut(texts, at + 1, text)
              && History(Cut(revisions, at, revision), Cut(texts, at + 1, text))
  {
    if revision.patch == [] {
      SpliceHistory(revisions, texts, at, revision);
    } else {
      CutHistory(revisions, texts, at, revision, text);
      SpliceAtEnd(revisions, at, revision);
      SpliceAtEnd(texts, at + 1, text);
    }
  }

  lemma EmptyReverses(text: string)
    ensures Reverses([], text, text)
  {
    assert InvertPatch([]) == [] && AsPatch([]) == [];
    assert AlterString(text, []) == text;
  }

  class Editor {
    const element: Element
    var revisions: seq<Revision>
    var at: int
    var last_known_text: string
    ghost var texts: seq<string>

    ghost predicate Valid()
      reads this, element
    {
      && History(revisions, texts)
      && -1 <= at < |revisions|
      && element.Text() == last_known_text == texts[at + 1]
    }

    constructor (element: Element)
      ensures Valid() && this.element == element && revisions == [] && at == -1 && texts == [element.Text()]
    {
      this.element := element;
      revisions, at := [], -1;
      last_known_text := Concat(element.nodes);
      texts := [Concat(element.nodes)];
    }

    /** The text is always that of patches 0 to `at` applied to the text the editor began with. */
    lemma TextIsReplayed()
      requires Valid()
      ensures Replay(texts[0], revisions, at + 1) == Some(element.Text())
    {
      HistoryReplays(revisions, texts, at + 1);
    }

    /** A cursor is given, and the present revision has another one or none. */
    predicate Moves(cursor: Option<Cursor>)
      requires -1 <= at < |revisions|
      reads this
    {
      cursor.Some? && (at == -1 || cursor != revisions[at].cursor)
    }

    /** Records a revision; the text that the patch leads to is known to the proof. */
    method Commit(patch: Patch, cursor: Option<Cursor>, now: int, ghost text: string)
      requires History(revisions, texts) && -1 <= at < |revisions|
      requires Reverses(patch, texts[at + 1], text)
      requires patch == [] ==> text == texts[at + 1]
      modifies this`revisions, this`at, this`texts
      ensures History(revisions, texts) && -1 <= at < |revisions| && texts[at + 1] == text
      ensures texts[0] == old(texts[0])
      ensures patch == [] && cursor == None ==> unchanged(this)
      ensures patch == [] && old(at) >= 0 && cursor == old(revisions[at].cursor) ==> unchanged(this)
      ensures patch != [] || old(Moves(cursor)) ==> at == old(at) + 1
      ensures patch != [] ==>
                && revisions == Cut(old(revisions), at, Revision(patch, cursor, now))
                && texts == Cut(old(texts), at + 1, text)
      ensures patch == [] && old(Moves(cursor)) ==>
                && revisions == Spliced(old(revisions), at, Revision([], cursor, now))
                && texts == Spliced(old(texts), at + 1, text)
      ensures old(Moves(cursor)) <==> cursor.Some? && (old(at) == -1 || cursor != old(revisions[at].cursor))
    {
      var cursor_changed :=
        cursor.Some? && (at == -1 || revisions[at].cursor == None || cursor != revisions[at].cursor);
      if patch != [] || cursor_changed {
        var revision := Revision(patch, cursor, now);
        at := at + 1;
        CommitHistory(revisions, texts, at, revision, text);
        if patch != [] {
          revisions, texts := revisions[..at], texts[..at + 1];
        }
        revisions := Spliced(revisions, at, revision);
        texts := Spliced(texts, at + 1, text);
      }
    }

    /** An edit by the program, whose alterations may be listed in any order in which it can be undone. */
    method Edit(alterations: seq<Alteration>, cursor: Cursor, now: int)
      requires Valid() && FitsSorted(alterations, |element.Text()|) && Undone(alterations, element.Text())
      modifies this, element
      ensures Valid() && texts[0] == old(texts[0])
      ensures element.Text() == AlterString(old(element.Text()), alterations)
      ensures alterations != [] ==>
                && at == old(at) + 1 == |revisions| - 1
                && texts == Cut(old(texts), at + 1, element.Text()) && texts[at] == old(element.Text())
                && revisions == Cut(old(revisions), at, Revision(ToPatch(alterations, texts[at]), Some(cursor), now))
    {
      ghost var text, altered := element.Text(), AlterString(element.Text(), alterations);
      var patch := ToPatch(alterations, Concat(element.nodes));
      EditReverses(alterations, text);
      var ok := element.Alter(alterations);
      assert texts[at + 1] == text && Reverses(patch, text, altered);
      Commit(patch, Some(cursor), now, altered);
      last_known_text := AlterString(last_known_text, alterations);
    }

    /** The user has changed the nodes of the element. */
    method Input(nodes: seq<string>, cursor: Option<Cursor>, now: int)
      requires Valid()
      modifies this, element
      ensures Valid() && texts[0] == old(texts[0])
      ensures element.nodes == nodes
      ensures Concat(nodes) != old(element.Text()) ==>
                at == old(at) + 1 == |revisions| - 1 && texts == Cut(old(texts), at + 1, Concat(nodes))
                && revisions[..at] == old(revisions)[..at] && revisions[at].cursor == cursor
      ensures Concat(nodes) == old(element.Text()) && !old(Moves(cursor)) ==>
                at == old(at) && revisions == old(revisions) && texts == old(texts)
      ensures Concat(nodes) == old(element.Text()) && old(Moves(cursor)) ==>
                at == old(at) + 1 && revisions == Spliced(old(revisions), at, Revision([], cursor, now))
    {
      element.nodes := nodes;
      var text := Concat(element.nodes);
      var alterations := RudimentaryDiff(last_known_text, text);
      var patch := ToPatch(alterations, last_known_text);
      AscendingUndoable(alterations, |last_known_text|);
      UndoableRestores(alterations, last_known_text);
      EditReverses(alterations, last_known_text);
      last_known_text := text;
      Commit(patch, cursor, now, text);
    }

    /** The user has only moved the cursor. What could be redone still can. */
    method SelectionChange(cursor: Cursor, now: int)
      requires Valid()
      modifies this
      ensures Valid()
      ensures texts[at + 1..] == old(texts[at + 1..]) && last_known_text == old(last_known_text)
      ensures if old(at) >= 0 && old(revisions[at].cursor) == Some(cursor) then
                at == old(at) && revisions == old(revisions)
              else
                at == old(at) + 1 && revisions == Spliced(old(revisions), at, Revision([], Some(cursor), now))
    {
      EmptyReverses(texts[at + 1]);
      Commit([], Some(cursor), now, texts[at + 1]);
    }

    /** Applies one patch of the history to the text and the element, unless there is a conflict. */
    method Travel(patch: Patch, text: string, ghost goal: string) returns (ok: bool, altered: string)
      requires Restores(patch, text, goal) && element.Text() == text
      modifies element
      ensures ok && altered == goal == element.Text()
    {
      var alterations := ToAlterations(patch, text);
      AllClean(patch, text);
      if None in alterations {
        assert false;
        return false, text;
      }
      altered := AlterString(text, PatchAlterations(patch));
      ok := element.Alter(PatchAlterations(patch));
    }

    /** Moves to the revision before or after this one. */
    method Turn(back: bool, text: string) returns (ok: bool, altered: string)
      requires History(revisions, texts)
      requires if back then 0 <= at < |revisions| else -1 <= at < |revisions| - 1
      requires element.Text() == text == texts[at + 1]
      modifies this`at, element
      ensures ok && at == (if back then old(at) - 1 else old(at) + 1) && altered == texts[at + 1] == element.Text()
    {
      if back {
        assert Revises(revisions, texts, at);
        ok, altered := Travel(AsPatch(InvertPatch(revisions[at].patch)), text, texts[at]);
        at := at - 1;
      } else {
        assert Revises(revisions, texts, at + 1);
        ok, altered := Travel(revisions[at + 1].patch, text, texts[at + 2]);
        at := at + 1;
      }
    }

    /**
     Moves to another revision. There is never a conflict: the text ends up as it was in
     that revision, or in the nearest one there is.
     */
    method Checkout(to: int) returns (offset: int)
      requires Valid()
      modifies this`at, this`last_known_text, element
      ensures Valid()
      ensures at == Clamp(to, |revisions| - 1) == old(at) + offset
      ensures -1 <= to < |revisions| ==> at == to
      ensures to >= |revisions| ==> at == |revisions| - 1
      ensures to < -1 ==> at == -1
      ensures element.Text() == texts[at + 1]
    {
      var target := Clamp(to, |revisions| - 1);
      offset := target - at;
      var text := Concat(element.nodes);
      var going := true;
      while at != target && going
        invariant going && -1 <= at < |revisions|
        invariant if offset < 0 then target <= at else at <= target
        invariant element.Text() == text == texts[at + 1]
        decreases if at < target then target - at else at - target
      {
        going, text := Turn(offset < 0, text);
      }
      last_known_text := text;
    }

    /** Undoing an edit restores the text it changed, and redoing brings it back. */
    method EditUndoRedo(alterations: seq<Alteration>, cursor: Cursor, now: int) returns (undone: string, redone: string)
      requires Valid() && alterations != []
      requires FitsSorted(alterations, |element.Text()|) && Undone(alterations, element.Text())
      modifies this, element
      ensures Valid() && element.Text() == redone
      ensures undone == old(element.Text())
      ensures redone == AlterString(undone, alterations)
    {
      Edit(alterations, cursor, now);
      var offset := Checkout(at - 1);
      undone := Concat(element.nodes);
      offset := Checkout(at + 1);
      redone := Concat(element.nodes);
    }
  }

  lemma AllClean(patch: Patch, text: string)
    requires forall h <- patch :: Applies(h, text)
    ensures None !in ToAlterations(patch, text)
    ensures |ToAlterations(patch, text)| == |PatchAlterations(patch)| == |patch|
    ensures forall i :: 0 <= i < |patch| ==> ToAlterations(patch, text)[i] == Some(PatchAlterations(patch)[i])
  {
    forall i | 0 <= i < |patch|
      ensures |PatchAlterations(patch)| == |patch| && ToAlterations(patch, text)[i] == Some(PatchAlterations(patch)[i])
    {
      PatchAlterationsAt(patch, i);
      assert patch[i] in patch;
    }
  }
}
