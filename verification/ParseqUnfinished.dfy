/**
 Which requestors are told to cancel when a run ends.
 */
module ParseqUnfinished {
  import opened Prelude
  import opened Parseq

  /** While a run goes on, a requestor calls back for the first time, or hands over its cancel function. */
  datatype Note = Replied(number: nat) | Handed(number: nat)
  type Trace = seq<Note>

  /** The requestor has handed over its cancel function and has not called back since. */
  ghost predicate Unfinished(trace: Trace, i: nat) {
    exists k :: 0 <= k < |trace| && trace[k] == Handed(i) && forall m :: k < m < |trace| ==> trace[m] != Replied(i)
  }

  // ----- What is noted -----

  function Noted(s: State, r: Reply): Trace {
    if r.Reply? && r.number < s.next && s.running && r.number !in s.results then [Replied(r.number)] else []
  }

  function NotedAll(c: Config, s: State, rs: seq<Reply>): Trace
    decreases |rs|
  {
    if rs == [] then [] else Noted(s, rs[0]) + NotedAll(c, Handle(c, s, rs[0]), rs[1..])
  }

  function NotedAtStart(c: Config, s: State, value: Option<Value>, attempts: seq<Attempt>): Trace
    decreases |attempts|
  {
    if !s.running || s.next >= c.n || attempts == [] then []
    else
      var number, s1 := s.next, HandleAll(c, Started(s, value), attempts[0].nested);
      NotedAll(c, Started(s, value), attempts[0].nested)
      + match attempts[0].end
        case Returns(cancellable) => if cancellable && s1.running then [Handed(number)] else []
        case Throws(code) =>
          Noted(s1, Reply(number, None, Given(code)))
          + NotedAtStart(c, ThrowAction(c, s1, number, code), value, attempts[1..])
  }

  function NotedIn(c: Config, s: State, e: Event): Trace {
    match e
    case Fire(i, attempts) =>
      if i < |s.scheduled|
      then NotedAtStart(c, s.(scheduled := s.scheduled[..i] + s.scheduled[i + 1..]), s.scheduled[i], attempts)
      else []
    case Outside(r) => Noted(s, r)
    case Expire => []
  }

  function TraceOf(c: Config, events: seq<Event>): Trace {
    if events == [] then []
    else
      var before := events[..|events| - 1];
      TraceOf(c, before) + NotedIn(c, Run(c, before), events[|events| - 1])
  }

  // ----- Who is unfinished -----

  function Next(open: set<nat>, note: Note): set<nat> {
    match note
    case Replied(i) => open - {i}
    case Handed(i) => open + {i}
  }

  function Apply(open: set<nat>, trace: Trace): set<nat> {
    if trace == [] then open else Next(Apply(open, trace[..|trace| - 1]), trace[|trace| - 1])
  }

  lemma {:induction false} ApplyAppend(open: set<nat>, x: Trace, y: Trace)
    ensures Apply(open, x + y) == Apply(Apply(open, x), y)
    decreases |y|
  {
    if y == [] {
      assert x + y == x;
    } else {
      assert (x + y)[..|x + y| - 1] == x + y[..|y| - 1];
      ApplyAppend(open, x, y[..|y| - 1]);
    }
  }

  lemma {:induction false} ApplyIsUnfinished(trace: Trace, i: nat)
    ensures i in Apply({}, trace) <==> Unfinished(trace, i)
  {
    if trace != [] {
      var last := |trace| - 1;
      var front := trace[..last];
      ApplyIsUnfinished(front, i);
      if Unfinished(front, i) && trace[last] != Replied(i) {
        var k :| 0 <= k < last && front[k] == Handed(i) && forall m :: k < m < last ==> front[m] != Replied(i);
        assert trace[k] == Handed(i) && forall m :: k < m < |trace| ==> trace[m] != Replied(i);
      }
      if Unfinished(trace, i) && trace[last] != Handed(i) {
        var k :| 0 <= k < |trace| && trace[k] == Handed(i) && forall m :: k < m < |trace| ==> trace[m] != Replied(i);
        assert front[k] == Handed(i) && forall m :: k < m < last ==> front[m] != Replied(i);
      }
      if trace[last] == Handed(i) { LastUnfinished(trace, i); }
    }
  }

  lemma LastUnfinished(trace: Trace, i: nat)
    requires trace != [] && trace[|trace| - 1] == Handed(i)
    ensures Unfinished(trace, i)
  {
  }

  // ----- Cancel functions -----

  /** They are kept while the run goes on, and called when it ends. */
  ghost predicate Follows(s: State, trace: Trace, s1: State) {
    if s.running then
      if s1.running then s1.cancels == Apply(s.cancels, trace) && s1.stopped == s.stopped
      else s1.stopped == s.stopped + Apply(s.cancels, trace)
    else !s1.running && trace == [] && s1.stopped == s.stopped
  }

  lemma FollowsMore(s: State, x: Trace, s1: State, y: Trace, s2: State)
    requires Follows(s, x, s1) && Follows(s1, y, s2)
    ensures Follows(s, x + y, s2)
  {
    ApplyAppend(s.cancels, x, y);
    if y == [] { assert x + y == x; }
  }

  ghost predicate Fewer(s: State, s1: State) { s1.cancels <= s.cancels && s1.next == s.next }

  lemma EndFollows(s: State, o: Outcome, forget: bool)
    ensures Follows(s, [], CallBack(Stop(s), o, forget)) && Fewer(s, CallBack(Stop(s), o, forget))
  {
  }

  lemma ActionFollows(c: Config, s: State, number: nat, value: Option<Value>, reason: Reason)
    ensures Follows(s, [], Action(c, s, number, value, reason)) && Fewer(s, Action(c, s, number, value, reason))
  {
    var s1 := Recorded(s, number, value, !c.race && number < c.required);
    forall o ensures Follows(s1, [], CallBack(Stop(s1), o, true)) && Fewer(s1, CallBack(Stop(s1), o, true)) {
      EndFollows(s1, o, true);
    }
  }

  lemma ThrowFollows(c: Config, s: State, number: nat, code: int)
    requires number !in s.cancels && number < s.next
    ensures Follows(s, Noted(s, Reply(number, None, Given(code))), ThrowAction(c, s, number, code))
    ensures Fewer(s, ThrowAction(c, s, number, code))
  {
    var s1 := s.(flight := s.flight - {number});
    if number in s.results {
      var s2 := s1.(pending := s1.pending - 1);
      forall o ensures Follows(s2, [], CallBack(Stop(s2), o, true)) && Fewer(s2, CallBack(Stop(s2), o, true)) {
        EndFollows(s2, o, true);
      }
    } else {
      ActionFollows(c, s1, number, None, Given(code));
      OneReplied(s.cancels, number);
    }
  }

  lemma OneReplied(open: set<nat>, number: nat)
    ensures Apply(open, [Replied(number)]) == open - {number}
  {
    assert [Replied(number)][..0] == [];
  }

  lemma HandleFollows(c: Config, s: State, r: Reply)
    ensures Follows(s, Noted(s, r), Handle(c, s, r)) && Fewer(s, Handle(c, s, r))
  {
    if r.Reply? {
      var s1 := s.(flight := s.flight - {r.number}, cancels := s.cancels - {r.number});
      ActionFollows(c, s1, r.number, r.value, r.reason);
      OneReplied(s.cancels, r.number);
    }
  }

  lemma {:induction false} HandleAllFollows(c: Config, s: State, rs: seq<Reply>)
    ensures Follows(s, NotedAll(c, s, rs), HandleAll(c, s, rs)) && Fewer(s, HandleAll(c, s, rs))
    decreases |rs|
  {
    if rs != [] {
      var s1 := Handle(c, s, rs[0]);
      HandleFollows(c, s, rs[0]);
      HandleAllFollows(c, s1, rs[1..]);
      FollowsMore(s, Noted(s, rs[0]), s1, NotedAll(c, s1, rs[1..]), HandleAll(c, s, rs));
    }
  }

  /** Only those that have started have handed over anything. */
  predicate Below(s: State) { forall i :: i in s.cancels ==> i < s.next }

  lemma ReturnFollows(s: State, noted: Trace, s1: State, number: nat, cancellable: bool)
    requires Follows(s, noted, s1) && Below(s1) && number < s1.next
    ensures var s2 := if cancellable && s1.running then s1.(cancels := s1.cancels + {number}) else s1;
            Follows(s, noted + (if cancellable && s1.running then [Handed(number)] else []), s2) && Below(s2)
  {
    if cancellable && s1.running {
      assert [Handed(number)][..0] == [];
      FollowsMore(s, noted, s1, [Handed(number)], s1.(cancels := s1.cancels + {number}));
    } else {
      assert noted + [] == noted;
    }
  }

  /** A requestor is called. */
  lemma CallFollows(c: Config, s: State, value: Option<Value>, nested: seq<Reply>)
    requires Below(s)
    ensures var s1 := HandleAll(c, Started(s, value), nested);
            && Follows(s, NotedAll(c, Started(s, value), nested), s1)
            && Below(s1) && s.next !in s1.cancels && s.next < s1.next
  {
    HandleAllFollows(c, Started(s, value), nested);
  }

  lemma {:induction false} StartFollows(c: Config, s: State, value: Option<Value>, attempts: seq<Attempt>)
    requires Below(s)
    ensures Follows(s, NotedAtStart(c, s, value, attempts), Start(c, s, value, attempts))
    ensures Below(Start(c, s, value, attempts))
    decreases |attempts|
  {
    if s.running && s.next < c.n && attempts != [] {
      var number, s0, nested := s.next, Started(s, value), attempts[0].nested;
      var s1, noted := HandleAll(c, s0, nested), NotedAll(c, s0, nested);
      CallFollows(c, s, value, nested);
      match attempts[0].end
      case Returns(cancellable) => ReturnFollows(s, noted, s1, number, cancellable);
      case Throws(code) =>
        var s2, failed := ThrowAction(c, s1, number, code), Noted(s1, Reply(number, None, Given(code)));
        ThrowFollows(c, s1, number, code);
        StartFollows(c, s2, value, attempts[1..]);
        var more, s3 := NotedAtStart(c, s2, value, attempts[1..]), Start(c, s2, value, attempts[1..]);
        FollowsMore(s1, failed, s2, more, s3);
        FollowsMore(s, noted, s1, failed + more, s3);
    }
  }

  lemma ExpiredFollows(c: Config, s: State)
    ensures Follows(s, [], Expired(c, s)) && (Below(s) ==> Below(Expired(c, s)))
  {
    var s1 := s.(time_option := None, timer := false);
    forall o, forget
      ensures Follows(s, [], CallBack(Stop(s), o, forget)) && Follows(s1, [], CallBack(Stop(s1), o, forget))
    {
      EndFollows(s, o, forget);
      EndFollows(s1, o, forget);
    }
  }

  lemma EventFollows(c: Config, s: State, e: Event)
    requires Below(s)
    ensures Follows(s, NotedIn(c, s, e), Happen(c, s, e)) && Below(Happen(c, s, e))
  {
    match e
    case Fire(i, attempts) =>
      if i < |s.scheduled| {
        StartFollows(c, s.(scheduled := s.scheduled[..i] + s.scheduled[i + 1..]), s.scheduled[i], attempts);
      }
    case Outside(r) => HandleFollows(c, s, r);
    case Expire => ExpiredFollows(c, s);
  }

  lemma {:induction false} RunFollows(c: Config, events: seq<Event>)
    ensures Follows(Begin(c), TraceOf(c, events), Run(c, events)) && Below(Run(c, events))
    decreases |events|
  {
    if events != [] {
      var before, e := events[..|events| - 1], events[|events| - 1];
      RunFollows(c, before);
      EventFollows(c, Run(c, before), e);
      FollowsMore(Begin(c), TraceOf(c, before), Run(c, before), NotedIn(c, Run(c, before), e), Run(c, events));
    }
  }

  /**
   However a run ends, exactly those requestors are told to cancel that have handed over a cancel function and have not
   called back since; and none is told before.
   */
  lemma UnfinishedStopped(c: Config, events: seq<Event>, i: nat)
    ensures var s := Run(c, events); i in s.stopped <==> !s.running && Unfinished(TraceOf(c, events), i)
  {
    RunFollows(c, events);
    ApplyIsUnfinished(TraceOf(c, events), i);
  }
}
