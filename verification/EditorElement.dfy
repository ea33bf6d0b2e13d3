/**
 Altering the text nodes of an element in place.

 The element is the list of its text nodes. Alterations may end in a later node than
 the one they begin in, and nodes may be empty.
 */
module EditorElement {
  import opened Prelude
  import opened EditorText

  function Concat(nodes: seq<string>): string {
    if nodes == [] then "" else nodes[0] + Concat(nodes[1..])
  }

  lemma {:induction false} ConcatAppend(nodes: seq<string>, last: string)
    ensures Concat(nodes + [last]) == Concat(nodes) + last
  {
    if nodes == [] {
      assert [last][1..] == [] && Concat([]) == "";
      assert Concat([last]) == last + "";
    } else {
      assert (nodes + [last])[0] == nodes[0] && (nodes + [last])[1..] == nodes[1..] + [last];
      ConcatAppend(nodes[1..], last);
      Associates(nodes[0], Concat(nodes[1..]), last);
    }
  }

  predicate Open(s: string) { true }

  /** The two parts make the whole. Only where a proof opens the first part is it known that they do. */
  ghost predicate Joined(first: string, second: string, whole: string) {
    forall k {:trigger Open(k)} :: Open(k) && k == first ==> k + second == whole
  }

  /** What is still to be written after some position, for alterations that fit. */
  function Pending(s: string, alterations: seq<Alteration>, position: nat): string {
    if Chained(alterations, position) then AlterFrom(s, alterations, position) else ""
  }

  lemma ConsPending(s: string, a: Alteration, rest: seq<Alteration>, q: nat)
    requires Chained([a] + rest, q) && a.start <= |s|
    ensures Chained(rest, a.end)
    ensures q <= a.start && Pending(s, [a] + rest, q) == s[q..a.start] + a.replacement + Pending(s, rest, a.end)
    ensures End([a] + rest, q) == End(rest, a.end)
  {
    assert ([a] + rest)[1..] == rest;
  }

  /** Cutting a range out of the middle of a node and writing a replacement there. */
  lemma EditedNode(value: string, done: string, s: string, q: nat, start: nat, end: nat, node_end: nat,
                   replacement: string)
    requires q <= start <= end <= node_end <= |s| && Joined(done, s[q..node_end], value)
    ensures var at := |done| + (start - q);
            && at + (end - start) <= |value|
            && Joined(done + (s[q..start] + replacement), s[end..node_end],
                      value[..at] + replacement + value[at + (end - start)..])
  {
    assert Open(done);
    var at := |done| + (start - q);
    assert value[..at] == done + s[q..start];
    assert value[at + (end - start)..] == s[end..node_end];
    Associates(done, s[q..start], replacement);
  }

  /**
   Midway through a node: its text up to q has become `done`, and the alterations to come,
   taken from q on, complete what the alterations at the start of the node stand for.
   */
  ghost predicate Midway(s: string, total: string, total_end: nat, done: string, q: nat, alterations: seq<Alteration>) {
    forall k: nat {:trigger Look(k)} :: Look(k) && k == q ==> MidwayAt(s, total, total_end, done, k, alterations)
  }

  /** Only where a proof looks at a position is it known what holds there. */
  predicate Look(q: nat) { true }

  ghost predicate MidwayAt(s: string, total: string, total_end: nat, done: string, q: nat,
                           alterations: seq<Alteration>) {
    && q <= |s| && Chained(alterations, q)
    && Joined(done, Pending(s, alterations, q), total)
    && if alterations == [] then total_end == q else End(alterations, q) == total_end
  }

  lemma Advance(s: string, total: string, total_end: nat, done: string, q: nat, a: Alteration, rest: seq<Alteration>)
    requires a.end <= |s| && Midway(s, total, total_end, done, q, [a] + rest)
    ensures q <= a.start <= a.end
    ensures Midway(s, total, total_end, done + (s[q..a.start] + a.replacement), a.end, rest)
  {
    assert Look(q);
    assert ([a] + rest)[0] == a;
    assert Open(done);
    ConsPending(s, a, rest, q);
    Associates(done, s[q..a.start] + a.replacement, Pending(s, rest, a.end));
  }

  /** An alteration that reaches beyond the node is as good as one that writes here and one that only removes there. */
  lemma SplitStandsFor(s: string, total: string, total_end: nat, done: string, q: nat, a: Alteration,
                       rest: seq<Alteration>, end: nat)
    requires a.start <= end <= a.end && end <= |s| && Midway(s, total, total_end, done, q, [a] + rest)
    ensures Midway(s, total, total_end, done, q,
                   [Alteration(a.start, end, a.replacement)] + ([Alteration(end, a.end, "")] + rest))
  {
    assert Look(q);
    assert ([a] + rest)[0] == a;
    ConsPending(s, a, rest, q);
    SplitPending(s, a, rest, end);
    var head, tail := Alteration(a.start, end, a.replacement), [Alteration(end, a.end, "")] + rest;
    assert ([head] + tail)[0] == head && ([head] + tail)[1..] == tail;
    ConsPending(s, head, tail, q);
  }

  ghost predicate InNode(s: string, value: string, done: string, q: nat, end: nat) {
    q <= end <= |s| && Joined(done, s[q..end], value)
  }

  /** What the first alteration leaves to the nodes after this one. */
  function Remaining(a: Alteration, rest: seq<Alteration>, end: nat): seq<Alteration> {
    if a.end > end then [Alteration(end, a.end, "")] + rest else rest
  }

  /** Where the part of an alteration that lies in the node ends. */
  function CutAt(a: Alteration, end: nat): nat { if a.end > end then end else a.end }

  /** One alteration, or the part of it that lies in the node, is applied to the value of the node. */
  lemma StepNode(s: string, total: string, total_end: nat, value: string, done: string, q: nat, end: nat,
                 a: Alteration, rest: seq<Alteration>, at: int, removed: int)
    requires InNode(s, value, done, q, end) && Midway(s, total, total_end, done, q, [a] + rest) && a.start < end
    requires at == |done| + (a.start - q) && removed == CutAt(a, end) - a.start
    ensures q <= a.start <= CutAt(a, end) && 0 <= at <= at + removed <= |value|
    ensures InNode(s, value[..at] + a.replacement + value[at + removed..], done + (s[q..a.start] + a.replacement),
                   CutAt(a, end), end)
    ensures Midway(s, total, total_end, done + (s[q..a.start] + a.replacement), CutAt(a, end), Remaining(a, rest, end))
  {
    StepMidway(s, total, total_end, done, q, end, a, rest);
    EditedNode(value, done, s, q, a.start, CutAt(a, end), end, a.replacement);
  }

  lemma StepMidway(s: string, total: string, total_end: nat, done: string, q: nat, end: nat, a: Alteration,
                   rest: seq<Alteration>)
    requires Midway(s, total, total_end, done, q, [a] + rest) && a.start < end <= |s|
    ensures q <= a.start <= a.end
    ensures Midway(s, total, total_end, done + (s[q..a.start] + a.replacement), CutAt(a, end), Remaining(a, rest, end))
  {
    assert Look(q);
    assert ([a] + rest)[0] == a;
    if a.end > end {
      SplitStandsFor(s, total, total_end, done, q, a, rest, end);
      Advance(s, total, total_end, done, q, Alteration(a.start, end, a.replacement), Remaining(a, rest, end));
    } else {
      Advance(s, total, total_end, done, q, a, rest);
    }
  }

  /** Applies one alteration to a node, or the part of it that lies in the node. */
  method AlterOnce(ghost s: string, ghost total: string, ghost total_end: nat, ghost done: string, ghost q: nat,
                   end: nat,
                   value0: string, a: Alteration, rest: seq<Alteration>, position: nat, correction0: int)
    returns (value: string, alterations: seq<Alteration>, correction: int)
    requires InNode(s, value0, done, q, end) && Midway(s, total, total_end, done, q, [a] + rest)
    requires a.start < end && |done| == (q - position) + correction0
    ensures q <= a.start && alterations == Remaining(a, rest, end)
    ensures var cut := CutAt(a, end);
            var written := done + (s[q..a.start] + a.replacement);
            && a.start <= cut
            && |written| == (cut - position) + correction
            && InNode(s, value, written, cut, end)
            && Midway(s, total, total_end, written, cut, alterations)
  {
    alterations := rest;
    var range_end := a.end;
    if a.end > end {
      range_end := end;
      alterations := [Alteration(end, a.end, "")] + alterations;
    }
    var remove_length := range_end - a.start;
    var remove_start := a.start - position + correction0;
    StepNode(s, total, total_end, value0, done, q, end, a, rest, remove_start, remove_length);
    var prefix := value0[..remove_start];
    var suffix := value0[remove_start + remove_length..];
    value := prefix + a.replacement + suffix;
    correction := correction0 + |a.replacement| - remove_length;
  }

  /**
   The part of a sorted list that begins in a node is applied to the node; a part that reaches further is left over.
   */
  method AlterNode(ghost s: string, node: string, position: nat, alterations0: seq<Alteration>)
    returns (value: string, alterations: seq<Alteration>)
    requires NodeReady(s, node, position, alterations0)
    ensures NodeAltered(s, position, position + |node|, alterations0, value, alterations)
  {
    var end := position + |node|;
    value, alterations := node, alterations0;
    var correction := 0;
    ghost var done, q := "", position;
    ghost var total, total_end := StartNode(s, position, node, alterations0);
    while |alterations| > 0 && alterations[0].start < end
      invariant position <= q && |done| == (q - position) + correction
      invariant InNode(s, value, done, q, end)
      invariant Midway(s, total, total_end, done, q, alterations)
      decreases |alterations|, if |alterations| > 0 then end - alterations[0].start else 0
    {
      ghost var a := alterations[0];
      assert alterations == [a] + alterations[1..];
      value, alterations, correction := AlterOnce(s, total, total_end, done, q, end, value, alterations[0],
                                                  alterations[1..], position, correction);
      done, q := done + (s[q..a.start] + a.replacement), CutAt(a, end);
    }
    NodeEnds(s, value, done, q, end, alterations, total, total_end);
    NodeCloses(s, position, end, alterations0, value, alterations, total, total_end);
  }

  /** The node is the text at the position, from which on there are alterations. */
  ghost predicate NodeReady(s: string, node: string, position: nat, alterations: seq<Alteration>) {
    forall k: nat {:trigger Look(k)} :: Look(k) && k == position ==>
      && k + |node| <= |s| && s[k..k + |node|] == node && alterations != [] && Chained(alterations, k)
  }

  /** The node has been altered, and the alterations that are left complete what all of them stand for. */
  ghost predicate NodeAltered(s: string, position: nat, end: nat, alterations0: seq<Alteration>,
                              value: string, alterations: seq<Alteration>) {
    forall k: nat {:trigger Look(k)} :: Look(k) && k == end ==>
      && Chained(alterations, k) && Joined(value, Pending(s, alterations, k), Pending(s, alterations0, position))
      && if alterations == [] then End(alterations0, position) <= |s|
         else End(alterations, k) == End(alterations0, position)
  }

  lemma NodeCloses(s: string, position: nat, end: nat, alterations0: seq<Alteration>, value: string,
                   alterations: seq<Alteration>, total: string, total_end: nat)
    requires total == Pending(s, alterations0, position) && total_end == End(alterations0, position)
    requires Chained(alterations, end) && Joined(value, Pending(s, alterations, end), total)
    requires if alterations == [] then total_end <= |s| else End(alterations, end) == total_end
    ensures NodeAltered(s, position, end, alterations0, value, alterations)
  {
  }

  lemma StartNode(s: string, position: nat, node: string, alterations: seq<Alteration>)
    returns (total: string, total_end: nat)
    requires NodeReady(s, node, position, alterations)
    ensures InNode(s, node, "", position, position + |node|)
    ensures total == Pending(s, alterations, position) && total_end == End(alterations, position)
    ensures Midway(s, total, total_end, "", position, alterations)
  {
    assert Look(position);
    total, total_end := Pending(s, alterations, position), End(alterations, position);
    assert "" + s[position..position + |node|] == node;
    assert "" + total == total;
  }

  lemma SplitPending(s: string, a: Alteration, rest: seq<Alteration>, end: nat)
    requires end <= |s| && end <= a.end && Chained(rest, a.end)
    ensures var all := [Alteration(end, a.end, "")] + rest;
            Chained(all, end) && Pending(s, all, end) == Pending(s, rest, a.end) && End(all, end) == End(rest, a.end)
  {
    var all := [Alteration(end, a.end, "")] + rest;
    assert all[1..] == rest;
    assert s[end..end] + "" + Pending(s, rest, a.end) == Pending(s, rest, a.end);
  }

  lemma NodeEnds(s: string, value: string, done: string, q: nat, end: nat, alterations: seq<Alteration>,
                 total: string, total_end: nat)
    requires InNode(s, value, done, q, end) && Midway(s, total, total_end, done, q, alterations)
    requires alterations == [] || end <= alterations[0].start
    ensures Chained(alterations, end)
    ensures Joined(value, Pending(s, alterations, end), total)
    ensures if alterations == [] then total_end <= |s| else End(alterations, end) == total_end
  {
    assert Look(q);
    assert Open(done);
    AlterFromSplits(s, alterations, q, end);
    Associates(done, s[q..end], Pending(s, alterations, end));
  }

  function Replacements(alterations: seq<Alteration>): string {
    if alterations == [] then "" else alterations[0].replacement + Replacements(alterations[1..])
  }

  predicate AllInsertions(alterations: seq<Alteration>, position: nat) {
    || alterations == []
    || (alterations[0].start == alterations[0].end == position && AllInsertions(alterations[1..], position))
  }

  /** Beyond the last node, all alterations must be insertions exactly at the end. */
  lemma {:induction false} OnlyInsertions(s: string, alterations: seq<Alteration>)
    requires Chained(alterations, |s|)
    ensures AllInsertions(alterations, |s|) <==> End(alterations, |s|) <= |s|
    ensures End(alterations, |s|) <= |s| ==> Pending(s, alterations, |s|) == Replacements(alterations)
    ensures End(alterations, |s|) >= |s|
  {
    EndGrows(alterations, |s|);
    if alterations != [] {
      var a, rest := alterations[0], alterations[1..];
      EndGrows(rest, a.end);
      if a.end == |s| {
        OnlyInsertions(s, rest);
        assert a.start == |s| && Slice(s, |s|, |s|) == "";
        assert "" + a.replacement == a.replacement;
      }
    }
  }

  lemma {:induction false} EndGrows(alterations: seq<Alteration>, position: nat)
    requires Chained(alterations, position)
    ensures End(alterations, position) >= position
  {
    if alterations != [] { EndGrows(alterations[1..], alterations[0].end); }
  }

  /** The nodes before the current one are done; the rest still holds the original text from the position on. */
  ghost predicate Visiting(s: string, nodes: seq<string>, total: string, total_end: nat, position: nat, current: nat,
                           alterations: seq<Alteration>) {
    forall k: nat {:trigger Look(k)} ::
        Look(k) && k == position ==> VisitingAt(s, nodes, total, total_end, k, current, alterations)
  }

  /** The nodes from the current one on still hold the text from the position on. */
  ghost predicate Unvisited(s: string, position: nat, nodes: seq<string>, current: nat) {
    forall k: nat {:trigger Look(k)} :: Look(k) && k == current ==>
      k <= |nodes| && position <= |s| && s[position..] == Concat(nodes[k..])
  }

  ghost predicate VisitingAt(s: string, nodes: seq<string>, total: string, total_end: nat, position: nat, current: nat,
                             alterations: seq<Alteration>) {
    && current <= |nodes| && position <= |s| && Chained(alterations, position)
    && Unvisited(s, position, nodes, current)
    && Joined(Concat(nodes[..current]), Pending(s, alterations, position), total)
    && if alterations == [] then total_end <= |s| else End(alterations, position) == total_end
  }

  method VisitNode(ghost s: string, ghost total: string, ghost total_end: nat, nodes: seq<string>, position: nat,
                   current: nat,
                   alterations0: seq<Alteration>)
    returns (value: string, alterations: seq<Alteration>)
    requires Visiting(s, nodes, total, total_end, position, current, alterations0)
    requires alterations0 != [] && current < |nodes|
    ensures Visiting(s, nodes[current := value], total, total_end, position + |nodes[current]|, current + 1,
                     alterations)
  {
    OpenNode(s, nodes, total, total_end, position, current, alterations0);
    value, alterations := AlterNode(s, nodes[current], position, alterations0);
    CloseNode(s, nodes, total, total_end, position, current, alterations0, value, alterations);
  }

  /** What is known of the node to be visited. */
  lemma OpenNode(s: string, nodes: seq<string>, total: string, total_end: nat, position: nat, current: nat,
                 alterations: seq<Alteration>)
    requires Visiting(s, nodes, total, total_end, position, current, alterations) && alterations != []
    requires current < |nodes|
    ensures NodeReady(s, nodes[current], position, alterations)
  {
    assert Look(position);
    NextNode(s, nodes, current, position);
  }

  lemma CloseNode(s: string, nodes: seq<string>, total: string, total_end: nat, position: nat, current: nat,
                  alterations0: seq<Alteration>, value: string, alterations: seq<Alteration>)
    requires Visiting(s, nodes, total, total_end, position, current, alterations0) && alterations0 != []
    requires current < |nodes|
    requires NodeAltered(s, position, position + |nodes[current]|, alterations0, value, alterations)
    ensures Visiting(s, nodes[current := value], total, total_end, position + |nodes[current]|, current + 1,
                     alterations)
  {
    assert Look(position) && Look(position + |nodes[current]|);
    NextNode(s, nodes, current, position);
    NodeDone(s, nodes, current, value, Pending(s, alterations, position + |nodes[current]|),
             Pending(s, alterations0, position), total, position + |nodes[current]|);
  }

  class Element {
    var nodes: seq<string>

    constructor (nodes: seq<string>)
      ensures this.nodes == nodes
    {
      this.nodes := nodes;
    }

    function Text(): string
      reads this
    {
      Concat(nodes)
    }

    /**
     Does to the nodes what altering the string does to their concatenation, unless the
     alterations are out of range, which is when the source throws.
     */
    method Alter(alterations0: seq<Alteration>) returns (ok: bool)
      requires Chained(SortAlterations(alterations0), 0)
      modifies this
      ensures ok <==> End(SortAlterations(alterations0), 0) <= |old(Text())|
      ensures ok ==> Text() == AlterString(old(Text()), alterations0)
    {
      var alterations := SortAlterations(alterations0);
      ghost var s, total, total_end := Text(), AlterString(Text(), alterations0), End(alterations, 0);
      var position: nat, current: nat := 0, 0;
      StartVisit(nodes, alterations);
      while |alterations| > 0 && current < |nodes|
        invariant current <= |nodes| && Visiting(s, nodes, total, total_end, position, current, alterations)
        decreases |nodes| - current
      {
        var end := position + |nodes[current]|;
        var value;
        value, alterations := VisitNode(s, total, total_end, nodes, position, current, alterations);
        nodes := nodes[current := value];
        position := end;
        current := current + 1;
      }
      ok := forall a <- alterations :: a.start == position && a.end == position;
      AllVisited(s, nodes, total, total_end, position, current, alterations);
      if !ok { return; }
      var remnant := Replacements(alterations);
      // If no node was visited the remnant becomes a node of its own.
      nodes := WithRemnant(nodes, current, remnant);
    }
  }

  lemma StartVisit(nodes: seq<string>, alterations: seq<Alteration>)
    requires Chained(alterations, 0)
    ensures Visiting(Concat(nodes), nodes, AlterFrom(Concat(nodes), alterations, 0), End(alterations, 0), 0, 0,
                     alterations)
  {
    var s := Concat(nodes);
    assert nodes[0..] == nodes && s[0..] == s;
    assert Concat(nodes[..0]) == "" && "" + Pending(s, alterations, 0) == AlterFrom(s, alterations, 0);
  }

  /** When the loop ends, what is left is in range exactly if the whole was, and writing it completes the text. */
  lemma AllVisited(s: string, nodes: seq<string>, total: string, total_end: nat, position: nat, current: nat,
                   alterations: seq<Alteration>)
    requires Visiting(s, nodes, total, total_end, position, current, alterations)
    requires current <= |nodes| && (alterations == [] || current == |nodes|)
    ensures (forall a <- alterations :: a.start == position && a.end == position) <==> total_end <= |s|
    ensures total_end <= |s| ==> Some(Concat(WithRemnant(nodes, current, Replacements(alterations)))) == Some(total)
  {
    assert Look(position) && Look(current);
    if alterations != [] {
      assert |s[position..]| == 0;
      OnlyInsertions(s, alterations);
      AllInsertionsCovers(alterations, position);
    }
    if total_end <= |s| {
      FinishText(s, nodes, alterations, position, current, total);
    }
  }

  lemma {:induction false} AllInsertionsCovers(alterations: seq<Alteration>, position: nat)
    ensures AllInsertions(alterations, position) <==>
            forall a <- alterations :: a.start == position && a.end == position
  {
    if alterations != [] {
      AllInsertionsCovers(alterations[1..], position);
      assert forall a :: a in alterations <==> a == alterations[0] || a in alterations[1..];
    }
  }

  lemma NextNode(s: string, nodes: seq<string>, current: nat, position: nat)
    requires current < |nodes| && Unvisited(s, position, nodes, current)
    ensures var end := position + |nodes[current]|;
            && end <= |s| && s[position..end] == nodes[current]
            && Unvisited(s, end, nodes, current + 1)
  {
    assert Look(current);
    var node, rest := nodes[current], Concat(nodes[current + 1..]);
    assert nodes[current..][0] == node && nodes[current..][1..] == nodes[current + 1..];
    var t := s[position..];
    assert t == node + rest;
    assert s[position..position + |node|] == t[..|node|];
    assert s[position + |node|..] == t[|node|..];
  }

  lemma NodeDone(s: string, before: seq<string>, current: nat, value: string, left: string, todo: string,
                 total: string, end: nat)
    requires current < |before| && Joined(value, left, todo) && Joined(Concat(before[..current]), todo, total)
    requires Unvisited(s, end, before, current + 1)
    ensures var nodes := before[current := value];
            Unvisited(s, end, nodes, current + 1) && Joined(Concat(nodes[..current + 1]), left, total)
  {
    assert Look(current + 1) && Open(value) && Open(Concat(before[..current]));
    assert before[current := value][..current + 1] == before[..current] + [value];
    assert before[current := value][current + 1..] == before[current + 1..];
    ConcatAppend(before[..current], value);
    Associates(Concat(before[..current]), value, left);
  }

  /** The nodes with a remnant written after the last visited one. */
  function WithRemnant(nodes: seq<string>, current: nat, remnant: string): seq<string>
    requires current <= |nodes|
  {
    if current == 0 then [remnant] + nodes else nodes[current - 1 := nodes[current - 1] + remnant]
  }

  lemma RemnantAdds(nodes: seq<string>, remnant: string)
    ensures Some(Concat(WithRemnant(nodes, |nodes|, remnant))) == Some(Concat(nodes) + remnant)
  {
    if |nodes| == 0 {
      ConcatAppend(nodes, remnant);
      assert [remnant] + nodes == nodes + [remnant];
    } else {
      var front, last := nodes[..|nodes| - 1], nodes[|nodes| - 1];
      LastGrows(front, last, remnant);
      UpdateLast(nodes, last + remnant);
    }
  }

  lemma UpdateLast<T>(s: seq<T>, x: T)
    requires s != []
    ensures s == s[..|s| - 1] + [s[|s| - 1]]
    ensures s[|s| - 1 := x] == s[..|s| - 1] + [x]
  {
  }

  lemma LastGrows(front: seq<string>, last: string, remnant: string)
    ensures Some(Concat(front + [last + remnant])) == Some(Concat(front + [last]) + remnant)
  {
    ConcatAppend(front, last);
    ConcatAppend(front, last + remnant);
    Associates(Concat(front), last, remnant);
  }

  lemma EmptyRemnant(nodes: seq<string>, current: nat)
    requires current <= |nodes|
    ensures Concat(WithRemnant(nodes, current, "")) == Concat(nodes)
  {
    if current == 0 {
      assert ([""] + nodes)[1..] == nodes;
      assert "" + Concat(nodes) == Concat(nodes);
    } else {
      assert nodes[current - 1] + "" == nodes[current - 1];
      assert nodes[current - 1 := nodes[current - 1]] == nodes;
    }
  }

  /** However the loop ends, writing the remnant after the last visited node completes the text. */
  lemma FinishText(s: string, nodes: seq<string>, alterations: seq<Alteration>, position: nat, current: nat,
                   total: string)
    requires current <= |nodes| && position <= |s| && Some(s[position..]) == Some(Concat(nodes[current..]))
    requires Chained(alterations, position) && (alterations == [] || (current == |nodes| && position == |s|))
    requires alterations != [] ==> Pending(s, alterations, |s|) == Replacements(alterations)
    requires Joined(Concat(nodes[..current]), Pending(s, alterations, position), total)
    ensures Some(Concat(WithRemnant(nodes, current, Replacements(alterations)))) == Some(total)
  {
    assert Open(Concat(nodes[..current]));
    if alterations == [] {
      assert Slice(s, position, position + |s|) == s[position..];
      ConcatParts(nodes, current);
      EmptyRemnant(nodes, current);
    } else {
      assert nodes[..current] == nodes;
      RemnantAdds(nodes, Replacements(alterations));
    }
  }

  lemma {:induction false} ConcatParts(nodes: seq<string>, i: nat)
    requires i <= |nodes|
    ensures Concat(nodes[..i]) + Concat(nodes[i..]) == Concat(nodes)
  {
    if i == 0 {
      assert nodes[..0] == [] && nodes[0..] == nodes;
    } else {
      ConcatParts(nodes[1..], i - 1);
      assert nodes[..i][1..] == nodes[1..][..i - 1] && nodes[i..] == nodes[1..][i - 1..];
      Associates(nodes[0], Concat(nodes[1..][..i - 1]), Concat(nodes[i..]));
    }
  }
}
